/** The releaser itself: the fleet call, the witness write, and the segment path in front of them. */
module Releaser {
  import opened Plans
  import opened Blocks
  import opened Release

  /** The live (unsealed) order at the fleet. */
  class FleetOrder {
    var blocks: seq<Block>
    var complete: bool

    constructor (create: seq<Block>)
      ensures blocks == create && !complete
    {
      blocks, complete := create, false;
    }

    /** ReleaseOrder: append blocks, refusing a repeated id as a whole. The caller sees an error
        whenever the call was refused, never arrived, or its answer was lost. */
    method ReleaseOrder(more: seq<Block>, complete: bool, link: Link) returns (err: bool)
      modifies this
      ensures Accepted(old(blocks), more, link) ==> blocks == old(blocks) + more && this.complete == complete
      ensures !Accepted(old(blocks), more, link) ==> blocks == old(blocks) && this.complete == old(this.complete)
      ensures err <==> !(Accepted(old(blocks), more, link) && link.Delivered?)
    {
      if link.NotReached? || Clash(blocks, more) {
        return true;
      }
      blocks := blocks + more;
      this.complete := complete;
      err := link.ReplyLost?;
    }
  }

  /** The durable half of an order: its plan and how many waits have been consumed. */
  class OrderRow {
    const vendor: string
    var plan: Plan
    var waitIndex: nat

    constructor (vendor: string, plan: Plan)
      ensures this.vendor == vendor && this.plan == plan && waitIndex == 0
    {
      this.vendor, this.plan, this.waitIndex := vendor, plan, 0;
    }
  }

  /** How a release call ends. `AppendLanded` is an error that says the robot has the segment, so nothing may
      be rolled back: the witness did not advance, or the order could not be put in transit. */
  datatype Outcome = Completed | Refused | AppendLanded

  /** appendSegmentAndAdvance on a row loaded at `loaded`: the witness moves only after the fleet answered yes,
      and the status after the witness. A refusal is told apart from a landed append except when the answer
      is lost. */
  method AppendSegmentAndAdvance(
    row: OrderRow, fleet: FleetOrder, loaded: nat, segment: Plan, moreWaits: bool, blockOffset: nat,
    link: Link, written: bool, moved: bool) returns (outcome: Outcome)
    modifies row`waitIndex, fleet
    ensures
      var bs := ToBlocks(row.vendor, segment, blockOffset + 1, []);
      var landed := Accepted(old(fleet.blocks), bs, link);
      && fleet.blocks == (if landed then old(fleet.blocks) + bs else old(fleet.blocks))
      && fleet.complete == (if landed then !moreWaits else old(fleet.complete))
      && (outcome.Refused? <==> !landed || link.ReplyLost?)
      && (outcome.Completed? <==> landed && link.Delivered? && written && moved)
      && row.waitIndex == (if landed && link.Delivered? && written then loaded + 1 else old(row.waitIndex))
  {
    var blocks := StepsToBlocks(row.vendor, segment, blockOffset, []);
    var err := fleet.ReleaseOrder(blocks, !moreWaits, link);
    if err {
      return Refused;
    }
    if !written {
      return AppendLanded;
    }
    row.waitIndex := loaded + 1;
    return if moved then Completed else AppendLanded;
  }

  /** The segment for a loaded wait index, with a redirect patched in. */
  method SegmentToSend(plan: Plan, loaded: nat, delivery: string)
    returns (steps: Plan, moreWaits: bool, blockOffset: nat, found: bool)
    ensures found <==> loaded < |Waits(plan)|
    ensures found ==>
      && moreWaits == (loaded + 1 < |Waits(plan)|)
      && steps == Redirected(Segment(plan, loaded), delivery, moreWaits) && blockOffset == BlockOffset(plan, loaded)
  {
    var segment;
    segment, moreWaits, blockOffset, found := SplitSegment(plan, loaded);
    steps := segment;
    if found {
      OffsetCountsReleased(plan, loaded);
      hide Redirected, Segment, Released, BlockOffset, Waits;
      var buffer := new Step[|segment|](i requires 0 <= i < |segment| => segment[i]);
      assert buffer[..] == segment;
      PatchRedirectSegments(buffer, delivery, moreWaits);
      steps := buffer[..];
    }
  }

  /** What releaser `r` does in the protocol with the row it loaded: one attempt, and one advance if the
      append is known to have landed. */
  ghost function Acted(
    vendor: string, s: World, r: nat, loaded: nat, plan: Plan, delivery: string, link: Link, written: bool): World
  {
    var t := Act(vendor, s, r, Loaded(loaded, plan), delivery, link);
    if r in t.pcs && t.pcs[r].Landed? then Next(vendor, t, Advance(r, written)) else t
  }

  lemma ActedEffect(
    vendor: string, s: World, r: nat, loaded: nat, plan: Plan, delivery: string, link: Link, written: bool)
    ensures
      var u := Acted(vendor, s, r, loaded, plan, delivery, link, written);
      if loaded >= |Waits(plan)| then u.blocks == s.blocks && u.sealed == s.sealed && u.waitIndex == s.waitIndex
      else
        var bs := SegmentBlocks(vendor, plan, loaded, delivery);
        var landed := Accepted(s.blocks, bs, link);
        && u.blocks == (if landed then s.blocks + bs else s.blocks)
        && u.sealed == (if landed then loaded + 1 == |Waits(plan)| else s.sealed)
        && u.waitIndex == (if landed && link.Delivered? && written then loaded + 1 else s.waitIndex)
  {
    hide SegmentBlocks, Waits, Accepted;
  }

  /** The segment path shared by the operator release and the hard release, acting on a loaded
      snapshot. Whatever the world `s` around it, it does what a releaser does in the protocol. */
  method ReleaseSegment(
    row: OrderRow, fleet: FleetOrder, loaded: nat, plan: Plan, delivery: string,
    link: Link, written: bool, moved: bool, ghost s: World, ghost r: nat)
    returns (outcome: Outcome, found: bool)
    requires s.blocks == fleet.blocks && s.sealed == fleet.complete && s.waitIndex == row.waitIndex
    modifies row`waitIndex, fleet
    ensures found <==> loaded < |Waits(plan)|
    ensures
      var u := Acted(row.vendor, s, r, loaded, plan, delivery, link, written);
      fleet.blocks == u.blocks && fleet.complete == u.sealed && row.waitIndex == u.waitIndex
  {
    hide Acted, Waits, Segment, ToBlocks, Accepted;
    ActedEffect(row.vendor, s, r, loaded, plan, delivery, link, written);
    var steps, moreWaits, blockOffset;
    steps, moreWaits, blockOffset, found := SegmentToSend(plan, loaded, delivery);
    if !found {
      return Refused, false;
    }
    outcome := AppendSegmentAndAdvance(row, fleet, loaded, steps, moreWaits, blockOffset, link, written, moved);
  }
}
