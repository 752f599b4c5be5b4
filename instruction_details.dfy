/**
 * The instruction page a worker reads and acknowledges (src/pages/user/InstructionDetails.jsx):
 * the embedded player link, whether the instruction counts as already acknowledged, and the
 * acknowledgement button's state.
 */
module InstructionDetails {
  import opened Wrappers
  import opened Js
  import opened YouTube

  /** The fields of the fetched instruction this page reads. */
  datatype InstructionRecord = InstructionRecord(
    videoUrl: Option<string>,
    acked: Value,
    isAcknowledged: Value,
    acknowledged: Value,
    ackedAt: Value)

  /** The four fields any of which the backend may use to say "already acknowledged". */
  function AckFlags(r: InstructionRecord): seq<Value> {
    [r.acked, r.isAcknowledged, r.acknowledged, r.ackedAt]
  }

  /** `alreadyAcked`: `Boolean(acked) || Boolean(is_acknowledged) || Boolean(acknowledged) || Boolean(acked_at)`. */
  function AlreadyAcked(r: InstructionRecord): bool {
    Truthy(r.acked) || Truthy(r.isAcknowledged) || Truthy(r.acknowledged) || Truthy(r.ackedAt)
  }

  /** Already acknowledged exactly when one of the four flags is truthy; a record carrying none of them is not. */
  lemma AlreadyAckedIff(r: InstructionRecord)
    ensures AlreadyAcked(r) <==> exists k :: 0 <= k < 4 && Truthy(AckFlags(r)[k])
    ensures (forall k :: 0 <= k < 4 ==> Nullish(AckFlags(r)[k])) ==> !AlreadyAcked(r)
  {
    var flags := AckFlags(r);
    if AlreadyAcked(r) {
      var k := if Truthy(r.acked) then 0 else if Truthy(r.isAcknowledged) then 1
               else if Truthy(r.acknowledged) then 2 else 3;
      assert Truthy(flags[k]);
    }
    if exists k :: 0 <= k < 4 && Truthy(flags[k]) {
      var k :| 0 <= k < 4 && Truthy(flags[k]);
      assert flags[k] in {r.acked, r.isAcknowledged, r.acknowledged, r.ackedAt};
    }
  }

  /** `embedUrl`: `toYouTubeEmbed(instruction?.video_url)`. */
  function EmbedUrl(instruction: Option<InstructionRecord>): (embed: Option<string>)
    ensures embed.Some? ==> instruction.Some? && instruction.value.videoUrl.Some?
                            && embed == ToYouTubeEmbed(instruction.value.videoUrl.value)
    ensures instruction.Some? && instruction.value.videoUrl.Some? ==>
              embed == ToYouTubeEmbed(instruction.value.videoUrl.value)
    ensures instruction.None? || instruction.value.videoUrl.None? ==> embed == None
  {
    match instruction
    case None => None
    case Some(r) => match r.videoUrl case None => None case Some(u) => ToYouTubeEmbed(u)
  }

  /** A loaded instruction whose link is a `watch?v=` link gets the player link for that video id. */
  lemma WatchVideoEmbeds(record: InstructionRecord, id: string)
    requires record.videoUrl == Some(WatchPrefix + id) && |id| > 0 && IsVideoId(id)
    ensures EmbedUrl(Some(record)) == Some(EmbedPrefix + id)
  {
    WatchLink(id);
  }

  /** The page's state: the loaded instruction, the acknowledged flag and the button's busy flag. */
  class InstructionPage {
    var instruction: Option<InstructionRecord>
    var acked: bool
    var ackLoading: bool

    constructor ()
      ensures instruction == None && !acked && !ackLoading
    {
      instruction := None;
      acked := false;
      ackLoading := false;
    }

    /** The button is disabled by `acked || ackLoading`. */
    predicate AckEnabled()
      reads this
    {
      !acked && !ackLoading
    }

    /** `load()`: `fetched` is the response, None when the request failed (then only an error is shown). */
    method Load(fetched: Option<InstructionRecord>)
      modifies this
      ensures fetched.Some? ==> instruction == fetched && acked == AlreadyAcked(fetched.value)
      ensures fetched.None? ==> instruction == old(instruction) && acked == old(acked)
      ensures ackLoading == old(ackLoading)
    {
      if fetched.Some? {
        var data := fetched.value;
        instruction := Some(data);
        var alreadyAcked := Truthy(data.acked) || Truthy(data.isAcknowledged)
                            || Truthy(data.acknowledged) || Truthy(data.ackedAt);
        acked := alreadyAcked;
      }
    }

    /** `handleAck()`: busy while the request runs; only a successful request sets `acked`, and `Ack` never clears it. */
    method Ack(succeeded: bool)
      modifies this
      ensures acked == (old(acked) || succeeded)
      ensures !ackLoading
      ensures instruction == old(instruction)
      ensures succeeded ==> !AckEnabled()
    {
      ackLoading := true;
      if succeeded {
        acked := true;
      }
      ackLoading := false;
    }
  }
}
