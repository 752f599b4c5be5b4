/**
 * `toYouTubeEmbed(url)`, which the instruction editor uses to check video links
 * (src/pages/admin/InstructionsCRUD.jsx) and the instruction page uses to embed the
 * player (src/pages/user/InstructionDetails.jsx). The two files carry the same
 * function, branch for branch, and both are this one definition.
 */
module YouTube {
  import opened Wrappers
  import opened Strings

  const EmbedPrefix: string := "https://www.youtube.com/embed/"
  const WatchPrefix: string := "https://www.youtube.com/watch?v="
  const ShortPrefix: string := "https://youtu.be/"

  predicate AsciiLetter(c: char) {
    'A' <= c <= 'Z' || 'a' <= c <= 'z'
  }

  predicate SchemeChar(c: char) {
    AsciiLetter(c) || '0' <= c <= '9' || c == '+' || c == '-' || c == '.'
  }

  /** A C0 control or a space (U+0000 to U+0020): the URL parser strips these from both ends of its input. */
  predicate C0OrSpace(c: char) {
    c <= ' '
  }

  /** An ASCII tab or newline: the URL parser removes these wherever they occur. */
  predicate TabOrNewline(c: char) {
    c == '\t' || c == '\n' || c == '\r'
  }

  /** The input with its leading C0 controls and spaces removed. */
  function StripLeadingC0(s: string): (r: string)
    ensures |r| <= |s| && r == s[|s| - |r|..]
    ensures r == "" || !C0OrSpace(r[0])
    ensures forall k :: 0 <= k < |s| - |r| ==> C0OrSpace(s[k])
    decreases |s|
  {
    if |s| > 0 && C0OrSpace(s[0]) then StripLeadingC0(s[1..]) else s
  }

  /** The input with its trailing C0 controls and spaces removed. */
  function StripTrailingC0(s: string): (r: string)
    ensures |r| <= |s| && r == s[..|r|]
    ensures r == "" || !C0OrSpace(r[|r| - 1])
    ensures forall k :: |r| <= k < |s| ==> C0OrSpace(s[k])
    decreases |s|
  {
    if |s| > 0 && C0OrSpace(s[|s| - 1]) then StripTrailingC0(s[..|s| - 1]) else s
  }

  /** The input with every ASCII tab and newline removed. */
  function RemoveTabNewline(s: string): (r: string)
    ensures |r| <= |s|
    ensures forall k :: 0 <= k < |r| ==> !TabOrNewline(r[k])
    ensures (forall k :: 0 <= k < |s| ==> !TabOrNewline(s[k])) ==> r == s
  {
    if |s| == 0 then ""
    else (if TabOrNewline(s[0]) then "" else [s[0]]) + RemoveTabNewline(s[1..])
  }

  /** What the URL parser reads: the input without leading and trailing C0 controls and spaces, and
      without any ASCII tab or newline. */
  function UrlInput(url: string): string {
    RemoveTabNewline(StripTrailingC0(StripLeadingC0(url)))
  }

  /** A text the URL parser reads unchanged: not empty, no C0 control or space at either end, and no
      tab or newline anywhere. */
  predicate CleanUrlText(s: string) {
    && |s| > 0 && !C0OrSpace(s[0]) && !C0OrSpace(s[|s| - 1])
    && forall k :: 0 <= k < |s| ==> !TabOrNewline(s[k])
  }

  /** Necessary condition for `new URL(url)` not to throw without a base URL: the parser's input starts
      with a scheme, an ASCII letter followed by letters, digits, '+', '-' or '.', ended by ':'. */
  predicate HasUrlScheme(url: string) {
    match IndexOf(url, ":")
    case None => false
    case Some(i) => i > 0 && AsciiLetter(url[0]) && forall k :: 0 < k < i ==> SchemeChar(url[k])
  }

  /** The query of a URL, without its '?': the text after the first '?' that comes before any '#'. */
  function QueryOf(url: string): Option<string> {
    var beforeFragment := match IndexOf(url, "#") case Some(h) => url[..h] case None => url;
    match IndexOf(beforeFragment, "?")
    case None => None
    case Some(q) => Some(beforeFragment[q + 1..])
  }

  /** The name of a `name=value` pair: everything before the first '='. */
  function PairName(pair: string): string {
    match IndexOf(pair, "=") case Some(e) => pair[..e] case None => pair
  }

  /** The value of a `name=value` pair: everything after the first '=', or "" when there is none. */
  function PairValue(pair: string): string {
    match IndexOf(pair, "=") case Some(e) => pair[e + 1..] case None => ""
  }

  /** The value of the first non-empty pair called `name`. */
  function ParamValue(pairs: seq<string>, name: string): Option<string> {
    if |pairs| == 0 then None
    else if pairs[0] != "" && PairName(pairs[0]) == name then Some(PairValue(pairs[0]))
    else ParamValue(pairs[1..], name)
  }

  /** `new URL(url).searchParams.get(name)`, without percent-decoding. */
  function SearchParam(url: string, name: string): Option<string> {
    match QueryOf(url)
    case None => None
    case Some(q) => ParamValue(Split(q, "&"), name)
  }

  /** `url.split("youtu.be/")[1]?.split("?")[0]`. */
  function ShortLinkId(url: string): string
    requires Contains(url, "youtu.be/")
  {
    var pieces := Split(url, "youtu.be/");
    Split(pieces[1], "?")[0]
  }

  /** `toYouTubeEmbed(url)`: None stands for `null`. A `watch` link whose `new URL` throws gives null. */
  function ToYouTubeEmbed(url: string): Option<string> {
    if url == "" then None
    else if Contains(url, "youtube.com/watch") then
      var input := UrlInput(url);
      if !HasUrlScheme(input) then None
      else match SearchParam(input, "v")
        case Some(id) => if id != "" then Some(EmbedPrefix + id) else None
        case None => None
    else if Contains(url, "youtu.be/") then
      var id := ShortLinkId(url);
      if id != "" then Some(EmbedPrefix + id) else None
    else if Contains(url, "youtube.com/embed/") then Some(url)
    else None
  }

  /** The characters a YouTube video id is made of. */
  predicate IdChar(c: char) {
    AsciiLetter(c) || '0' <= c <= '9' || c == '_' || c == '-'
  }

  predicate IsVideoId(id: string) {
    forall k :: 0 <= k < |id| ==> IdChar(id[k])
  }

  /** The characters of a simple query such as `si=abc&t=42`. */
  predicate IsPlainQuery(q: string) {
    forall k :: 0 <= k < |q| ==> IdChar(q[k]) || q[k] == '=' || q[k] == '&'
  }

  /** Empty input and text matching none of the three patterns give null. */
  lemma NullCases(url: string)
    ensures url == "" ==> ToYouTubeEmbed(url) == None
    ensures !Contains(url, "youtube.com/watch") && !Contains(url, "youtu.be/") && !Contains(url, "youtube.com/embed/")
            ==> ToYouTubeEmbed(url) == None
    ensures ToYouTubeEmbed(url).Some? ==> url != ""
  {
  }

  // ---------------------------------------------------------------------------
  // Every answer is an embed link
  // ---------------------------------------------------------------------------

  lemma PrefixedIsEmbed(id: string)
    ensures Contains(EmbedPrefix + id, "youtube.com/embed/")
  {
    var r := EmbedPrefix + id;
    assert r[12..30] == EmbedPrefix[12..30];
    assert OccursAt(r, "youtube.com/embed/", 12);
    ContainsIff(r, "youtube.com/embed/");
  }

  /** Whatever `toYouTubeEmbed` returns is an embed link. */
  lemma ResultIsEmbed(url: string)
    requires ToYouTubeEmbed(url).Some?
    ensures Contains(ToYouTubeEmbed(url).value, "youtube.com/embed/")
  {
    if Contains(url, "youtube.com/watch") {
      PrefixedIsEmbed(SearchParam(UrlInput(url), "v").value);
    } else if Contains(url, "youtu.be/") {
      PrefixedIsEmbed(ShortLinkId(url));
    }
  }

  // ---------------------------------------------------------------------------
  // watch?v=ID
  // ---------------------------------------------------------------------------

  lemma WatchLinkChars(id: string)
    requires IsVideoId(id)
    ensures var url := WatchPrefix + id;
            && (forall m :: 0 <= m < |url| ==> url[m] != '#')
            && (forall m :: 0 <= m < |url| && url[m] == '?' ==> m == 29)
            && (forall m :: 0 <= m < |url| && url[m] == ':' ==> m == 5)
  {
    var url := WatchPrefix + id;
    forall m | 32 <= m < |url| ensures url[m] == id[m - 32] { }
  }

  lemma WatchLinkQuery(id: string)
    requires IsVideoId(id)
    ensures QueryOf(WatchPrefix + id) == Some("v=" + id)
  {
    var url := WatchPrefix + id;
    WatchLinkChars(id);
    NotContainsByChar(url, "#", 0);
    OccursAtChar(url, '?', 29);
    forall j: nat | j < 29 ensures !OccursAt(url, "?", j) {
      OccursAtChar(url, '?', j);
    }
    IndexOfIs(url, "?", 29);
    assert url[30..] == "v=" + id;
  }

  lemma WatchLinkParam(id: string)
    requires IsVideoId(id)
    ensures ParamValue(Split("v=" + id, "&"), "v") == Some(id)
  {
    var q := "v=" + id;
    assert forall m :: 2 <= m < |q| ==> q[m] == id[m - 2];
    NotContainsByChar(q, "&", 0);
    SplitHead(q, "&");
    OccursAtChar(q, '=', 1);
    OccursAtChar(q, '=', 0);
    IndexOfIs(q, "=", 1);
    assert q[2..] == id;
  }

  lemma WatchLinkScheme(id: string)
    requires IsVideoId(id)
    ensures HasUrlScheme(WatchPrefix + id)
  {
    var url := WatchPrefix + id;
    WatchLinkChars(id);
    OccursAtChar(url, ':', 5);
    forall j: nat | j < 5 ensures !OccursAt(url, ":", j) {
      OccursAtChar(url, ':', j);
    }
    IndexOfIs(url, ":", 5);
  }

  /** An occurrence inside a text is an occurrence in any text around it. */
  lemma OccursInMiddle(pre: string, m: string, post: string, pat: string, i: nat)
    requires OccursAt(m, pat, i)
    ensures OccursAt(pre + m + post, pat, |pre| + i)
  {
    var u := pre + m + post;
    forall j | |pre| + i <= j < |pre| + i + |pat| ensures u[j] == m[j - |pre|] { }
    assert u[|pre| + i..|pre| + i + |pat|] == m[i..i + |pat|];
  }

  /** An occurrence at the start of a text stays one when the text is extended. */
  lemma OccursInPrefix(m: string, post: string, pat: string, i: nat)
    requires OccursAt(m, pat, i)
    ensures OccursAt(m + post, pat, i)
  {
    var u := m + post;
    assert u[i..i + |pat|] == m[i..i + |pat|];
  }

  lemma ContainsWhenOccurs(s: string, pat: string, i: nat)
    requires OccursAt(s, pat, i)
    ensures Contains(s, pat)
  {
    ContainsIff(s, pat);
  }

  /** "youtube.com/watch" sits at position 12 of a watch link. */
  lemma WatchLinkPattern(id: string)
    ensures OccursAt(WatchPrefix + id, "youtube.com/watch", 12)
  {
    assert OccursAt(WatchPrefix, "youtube.com/watch", 12);
    OccursInPrefix(WatchPrefix, id, "youtube.com/watch", 12);
  }

  /** No character of a watch link is a C0 control or a space. */
  lemma WatchLinkPrintable(id: string)
    requires IsVideoId(id)
    ensures forall k :: 0 <= k < |WatchPrefix + id| ==> !C0OrSpace((WatchPrefix + id)[k])
  {
    var url := WatchPrefix + id;
    forall k | 0 <= k < |url| ensures !C0OrSpace(url[k]) {
      if k >= |WatchPrefix| {
        assert url[k] == id[k - |WatchPrefix|];
        assert IdChar(id[k - |WatchPrefix|]);
      }
    }
  }

  /** A watch link is a clean text, so the URL parser reads it exactly as written. */
  lemma WatchLinkInput(id: string)
    requires IsVideoId(id)
    ensures CleanUrlText(WatchPrefix + id)
    ensures UrlInput(WatchPrefix + id) == WatchPrefix + id
  {
    var url := WatchPrefix + id;
    WatchLinkPrintable(id);
    assert StripLeadingC0(url) == url;
    assert StripTrailingC0(url) == url;
    assert forall k :: 0 <= k < |url| ==> !TabOrNewline(url[k]);
  }

  /** Leading C0 controls and spaces do not reach the URL parser. */
  lemma {:induction false} StripLeadingPad(pre: string, s: string)
    requires forall k :: 0 <= k < |pre| ==> C0OrSpace(pre[k])
    requires |s| > 0 && !C0OrSpace(s[0])
    ensures StripLeadingC0(pre + s) == s
  {
    if |pre| == 0 {
      assert pre + s == s;
    } else {
      assert (pre + s)[0] == pre[0];
      assert (pre + s)[1..] == pre[1..] + s;
      StripLeadingPad(pre[1..], s);
    }
  }

  /** Trailing C0 controls and spaces do not reach the URL parser. */
  lemma {:induction false} StripTrailingPad(s: string, post: string)
    requires forall k :: 0 <= k < |post| ==> C0OrSpace(post[k])
    requires |s| > 0 && !C0OrSpace(s[|s| - 1])
    ensures StripTrailingC0(s + post) == s
  {
    if |post| == 0 {
      assert s + post == s;
    } else {
      var t := s + post;
      assert t[|t| - 1] == post[|post| - 1];
      assert t[..|t| - 1] == s + post[..|post| - 1];
      StripTrailingPad(s, post[..|post| - 1]);
    }
  }

  /** Two texts that both pass the "youtube.com/watch" test and give the URL parser the same input
      get the same answer. */
  lemma WatchBranchReadsInput(a: string, b: string)
    requires a != "" && b != ""
    requires Contains(a, "youtube.com/watch") && Contains(b, "youtube.com/watch")
    requires UrlInput(a) == UrlInput(b)
    ensures ToYouTubeEmbed(a) == ToYouTubeEmbed(b)
  {
  }

  /** Padding of C0 controls and spaces around a clean text is all the URL parser drops. */
  lemma InputOfPadded(pre: string, s: string, post: string)
    requires forall k :: 0 <= k < |pre| ==> C0OrSpace(pre[k])
    requires forall k :: 0 <= k < |post| ==> C0OrSpace(post[k])
    requires CleanUrlText(s)
    ensures UrlInput(pre + s + post) == s
  {
    StripPadding(pre, s, post);
  }

  lemma StripPadding(pre: string, s: string, post: string)
    requires forall k :: 0 <= k < |pre| ==> C0OrSpace(pre[k])
    requires forall k :: 0 <= k < |post| ==> C0OrSpace(post[k])
    requires |s| > 0 && !C0OrSpace(s[0]) && !C0OrSpace(s[|s| - 1])
    ensures StripTrailingC0(StripLeadingC0(pre + s + post)) == s
  {
    assert pre + s + post == pre + (s + post);
    assert (s + post)[0] == s[0];
    StripLeadingPad(pre, s + post);
    StripTrailingPad(s, post);
  }

  lemma PaddedInput(pre: string, id: string, post: string)
    requires forall k :: 0 <= k < |pre| ==> C0OrSpace(pre[k])
    requires forall k :: 0 <= k < |post| ==> C0OrSpace(post[k])
    requires IsVideoId(id)
    ensures UrlInput(pre + (WatchPrefix + id) + post) == WatchPrefix + id
  {
    WatchLinkInput(id);
    InputOfPadded(pre, WatchPrefix + id, post);
  }

  lemma PaddedContains(pre: string, id: string, post: string)
    ensures Contains(pre + (WatchPrefix + id) + post, "youtube.com/watch")
  {
    WatchLinkPattern(id);
    OccursInMiddle(pre, WatchPrefix + id, post, "youtube.com/watch", 12);
    ContainsWhenOccurs(pre + (WatchPrefix + id) + post, "youtube.com/watch", |pre| + 12);
  }

  /** A watch link surrounded by C0 controls and spaces (a stored link with a stray space, say) is
      accepted as the link itself would be: the test for "youtube.com/watch" looks at the raw text, and
      the URL parser strips the padding. */
  lemma PaddedWatchLink(pre: string, id: string, post: string)
    requires forall k :: 0 <= k < |pre| ==> C0OrSpace(pre[k])
    requires forall k :: 0 <= k < |post| ==> C0OrSpace(post[k])
    requires |id| > 0 && IsVideoId(id)
    ensures ToYouTubeEmbed(pre + (WatchPrefix + id) + post) == Some(EmbedPrefix + id)
  {
    PaddedInput(pre, id, post);
    PaddedContains(pre, id, post);
    PaddedContains("", id, "");
    assert "" + (WatchPrefix + id) + "" == WatchPrefix + id;
    WatchLinkInput(id);
    WatchBranchReadsInput(pre + (WatchPrefix + id) + post, WatchPrefix + id);
    WatchLink(id);
  }

  /** `https://www.youtube.com/watch?v=ID` becomes the embed link of ID. */
  lemma WatchLink(id: string)
    requires |id| > 0 && IsVideoId(id)
    ensures ToYouTubeEmbed(WatchPrefix + id) == Some(EmbedPrefix + id)
  {
    WatchLinkPattern(id);
    ContainsWhenOccurs(WatchPrefix + id, "youtube.com/watch", 12);
    WatchLinkInput(id);
    WatchLinkScheme(id);
    WatchLinkQuery(id);
    WatchLinkParam(id);
  }

  // ---------------------------------------------------------------------------
  // youtu.be/ID
  // ---------------------------------------------------------------------------

  /** In a short link with a plain query, the only '.' is the one in "youtu.be". */
  lemma ShortLinkDots(id: string, tail: string)
    requires IsVideoId(id) && (tail == "" || (tail[0] == '?' && IsPlainQuery(tail[1..])))
    ensures var url := ShortPrefix + id + tail;
            forall m :: 0 <= m < |url| && m != 13 ==> url[m] != '.'
  {
    var url := ShortPrefix + id + tail;
    forall m | 0 <= m < |url| && m != 13 ensures url[m] != '.' {
      if m > 17 + |id| {
        assert url[m] == tail[1..][m - 18 - |id|];
      } else if m == 17 + |id| {
        assert url[m] == tail[0];
      } else if m >= 17 {
        assert url[m] == id[m - 17];
      }
    }
  }

  lemma ShortLinkNotWatch(id: string, tail: string)
    requires IsVideoId(id) && (tail == "" || (tail[0] == '?' && IsPlainQuery(tail[1..])))
    ensures !Contains(ShortPrefix + id + tail, "youtube.com/watch")
  {
    var url := ShortPrefix + id + tail;
    var pat := "youtube.com/watch";
    ShortLinkDots(id, tail);
    assert pat[7] == '.';
    forall i | 7 <= i < |url| && url[i] == pat[7] ensures !OccursAt(url, pat, i - 7) {
      assert i == 13;
      MismatchAt(url, pat, 6, 0);
    }
    NotContainsAnchor(url, pat, 7);
  }

  lemma ShortLinkSeparator(id: string, tail: string)
    requires IsVideoId(id) && (tail == "" || (tail[0] == '?' && IsPlainQuery(tail[1..])))
    ensures IndexOf(ShortPrefix + id + tail, "youtu.be/") == Some(8)
  {
    var url := ShortPrefix + id + tail;
    var sep := "youtu.be/";
    ShortLinkDots(id, tail);
    assert url[8..17] == ShortPrefix[8..17];
    assert OccursAt(url, sep, 8);
    forall j: nat | j < 8 ensures !OccursAt(url, sep, j) {
      MismatchAt(url, sep, j, 5);
    }
    IndexOfIs(url, sep, 8);
  }

  /** After "youtu.be/", a short link with a plain query has no '.' left. */
  lemma ShortLinkRestNoDot(id: string, tail: string)
    requires IsVideoId(id) && (tail == "" || (tail[0] == '?' && IsPlainQuery(tail[1..])))
    ensures (ShortPrefix + id + tail)[17..] == id + tail
    ensures '.' !in id + tail
  {
    var url := ShortPrefix + id + tail;
    ShortLinkDots(id, tail);
    var rest := url[17..];
    assert rest == id + tail;
    forall m | 0 <= m < |rest| ensures rest[m] != '.' {
      assert rest[m] == url[m + 17];
    }
  }

  lemma ShortLinkPieces(id: string, tail: string)
    requires IsVideoId(id) && (tail == "" || (tail[0] == '?' && IsPlainQuery(tail[1..])))
    ensures Contains(ShortPrefix + id + tail, "youtu.be/")
    ensures Split(ShortPrefix + id + tail, "youtu.be/")[1] == id + tail
  {
    var url := ShortPrefix + id + tail;
    var sep := "youtu.be/";
    var rest := id + tail;
    ShortLinkSeparator(id, tail);
    ShortLinkRestNoDot(id, tail);
    SplitStep(url, sep);
    assert Split(url, sep) == [url[..8]] + Split(rest, sep);
    NotContainsByChar(rest, sep, 5);
    SplitHead(rest, sep);
    assert Split(rest, sep) == [rest];
  }

  lemma ShortLinkIdIs(id: string, tail: string)
    requires IsVideoId(id) && (tail == "" || (tail[0] == '?' && IsPlainQuery(tail[1..])))
    ensures Contains(ShortPrefix + id + tail, "youtu.be/")
    ensures ShortLinkId(ShortPrefix + id + tail) == id
  {
    ShortLinkPieces(id, tail);
    var rest := id + tail;
    if tail == "" {
      assert rest == id;
      assert '?' !in id by {
        forall m | 0 <= m < |id| ensures id[m] != '?' {
          assert IdChar(id[m]);
        }
      }
      NotContainsByChar(rest, "?", 0);
      SplitHead(rest, "?");
    } else {
      OccursAtChar(rest, '?', |id|);
      forall j: nat | j < |id| ensures !OccursAt(rest, "?", j) {
        OccursAtChar(rest, '?', j);
        assert rest[j] == id[j];
      }
      IndexOfIs(rest, "?", |id|);
      SplitHead(rest, "?");
      assert rest[..|id|] == id;
    }
  }

  /** `https://youtu.be/ID`, with or without a query, becomes the embed link of ID; an empty ID gives null. */
  lemma ShortLink(id: string, tail: string)
    requires IsVideoId(id) && (tail == "" || (tail[0] == '?' && IsPlainQuery(tail[1..])))
    ensures ToYouTubeEmbed(ShortPrefix + id + tail) == if id == "" then None else Some(EmbedPrefix + id)
  {
    ShortLinkNotWatch(id, tail);
    ShortLinkIdIs(id, tail);
  }

  /** The two link shapes the function's doc comment names lead to the same player. */
  lemma WatchAndShortAgree(id: string)
    requires |id| > 0 && IsVideoId(id)
    ensures ToYouTubeEmbed(WatchPrefix + id) == ToYouTubeEmbed(ShortPrefix + id) == Some(EmbedPrefix + id)
  {
    WatchLink(id);
    ShortLink(id, "");
    assert ShortPrefix + id + "" == ShortPrefix + id;
  }

  // ---------------------------------------------------------------------------
  // embed/ID
  // ---------------------------------------------------------------------------

  /** In an embed link of a video id, the only dots are at 11 and 19. */
  lemma EmbedLinkDots(id: string)
    requires IsVideoId(id)
    ensures var url := EmbedPrefix + id;
            forall m :: 0 <= m < |url| && url[m] == '.' ==> m == 11 || m == 19
  {
    var url := EmbedPrefix + id;
    forall m | 30 <= m < |url| ensures url[m] == id[m - 30] { }
  }

  lemma EmbedNotWatch(id: string)
    requires IsVideoId(id)
    ensures !Contains(EmbedPrefix + id, "youtube.com/watch")
  {
    var url := EmbedPrefix + id;
    var pat := "youtube.com/watch";
    EmbedLinkDots(id);
    assert pat[7] == '.';
    forall i | 7 <= i < |url| && url[i] == pat[7] ensures !OccursAt(url, pat, i - 7) {
      if i == 11 {
        assert url[4] == 's';
        MismatchAt(url, pat, 4, 0);
      } else {
        assert url[24] == 'e';
        MismatchAt(url, pat, 12, 12);
      }
    }
    NotContainsAnchor(url, pat, 7);
  }

  lemma EmbedNotShort(id: string)
    requires IsVideoId(id)
    ensures !Contains(EmbedPrefix + id, "youtu.be/")
  {
    var url := EmbedPrefix + id;
    var pat := "youtu.be/";
    EmbedLinkDots(id);
    assert pat[5] == '.';
    forall i | 5 <= i < |url| && url[i] == pat[5] ensures !OccursAt(url, pat, i - 5) {
      if i == 11 {
        assert url[6] == '/';
        MismatchAt(url, pat, 6, 0);
      } else {
        assert url[14] == 'u';
        MismatchAt(url, pat, 14, 0);
      }
    }
    NotContainsAnchor(url, pat, 5);
  }

  /** An embed link is returned unchanged, so a second pass changes nothing. */
  lemma EmbedLinkFixed(id: string)
    requires IsVideoId(id)
    ensures ToYouTubeEmbed(EmbedPrefix + id) == Some(EmbedPrefix + id)
  {
    EmbedNotWatch(id);
    EmbedNotShort(id);
    PrefixedIsEmbed(id);
  }
}
