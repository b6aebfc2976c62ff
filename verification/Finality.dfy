/** Validating stored blocks against the chain, and finding the last block to keep when one is orphaned. */
module Finality {
  import opened Chain

  /** What the node says about a block number and hash. */
  datatype Verdict = Canonical | Orphaned | Unreachable

  type Oracle = (int, string) -> Verdict

  function Ask(oracle: Oracle, log: Log): Verdict {
    oracle(log.block, log.hash)
  }

  /** Events of one block carry one hash. */
  ghost predicate HashesAgree(stored: seq<Log>) {
    forall a, b :: a in stored && b in stored && a.block == b.block ==> a.hash == b.hash
  }

  // ------------------------------------------------- last consistent block

  /** An event with the greatest block number up to the given one. */
  method GetNearestIngestedEvent(stored: seq<Log>, blockNumber: int) returns (r: Option<Log>)
    ensures r.None? ==> forall e :: e in stored ==> e.block > blockNumber
    ensures r.Some? ==> r.value in stored && r.value.block <= blockNumber
    ensures r.Some? ==> forall e :: e in stored && e.block <= blockNumber ==> e.block <= r.value.block
  {
    r := None;
    for i := 0 to |stored|
      invariant r.None? ==> forall e :: e in stored[..i] ==> e.block > blockNumber
      invariant r.Some? ==> r.value in stored && r.value.block <= blockNumber
      invariant r.Some? ==> forall e :: e in stored[..i] && e.block <= blockNumber ==> e.block <= r.value.block
    {
      if stored[i].block <= blockNumber && (r.Some? ==> r.value.block < stored[i].block) {
        r := Some(stored[i]);
      }
    }
  }

  /** Block b is stored and accepted, and every stored block between it and the detected one is rejected. */
  ghost predicate IsLastConsistent(stored: seq<Log>, oracle: Oracle, detected: int, b: int) {
    && b < detected
    && (exists e :: e in stored && e.block == b && Ask(oracle, e) == Canonical)
    && (forall e :: e in stored && b < e.block < detected ==> Ask(oracle, e) == Orphaned)
  }

  /** Walks down the stored blocks; fails exactly when there is no last consistent block to be found. */
  method FindLastConsistentBlock(stored: seq<Log>, oracle: Oracle, reorgDetectedBlock: int) returns (r: Option<int>)
    requires HashesAgree(stored)
    ensures r.Some? ==> IsLastConsistent(stored, oracle, reorgDetectedBlock, r.value)
    ensures r.None? ==> forall b :: !IsLastConsistent(stored, oracle, reorgDetectedBlock, b)
    ensures (forall e :: e in stored ==> Ask(oracle, e) != Unreachable) ==>
      (r.None? <==> forall e :: e in stored && e.block < reorgDetectedBlock ==> Ask(oracle, e) != Canonical)
  {
    var fromBlock := reorgDetectedBlock - 1;
    while true
      invariant fromBlock < reorgDetectedBlock
      invariant forall e :: e in stored && fromBlock < e.block < reorgDetectedBlock ==> Ask(oracle, e) == Orphaned
      decreases if fromBlock < 0 then 0 else fromBlock + 1
    {
      var nearest := GetNearestIngestedEvent(stored, fromBlock);
      if nearest.None? {
        return None;
      }
      match Ask(oracle, nearest.value) {
        case Unreachable => return None;
        case Canonical => return Some(nearest.value.block);
        case Orphaned => fromBlock := nearest.value.block - 1;
      }
    }
  }

  // --------------------------------------------------- finality watermarks

  datatype Tag = Finalized | Safe

  datatype ReorgEvent = ReorgEvent(event: Log, tag: Tag)

  /**
    Stored events, last validated block per tag, the blocks that ever passed a check, and a reported reorganisation.
  */
  datatype State = State(
    stored: seq<Log>, watermark: map<Tag, int>, passed: map<Tag, set<int>>, reported: Option<ReorgEvent>)

  datatype Action =
    | Append(log: Log)
    | Validate(tag: Tag, oracle: Oracle)

  /** The stored watermark, zero before the first update. */
  function Watermark(s: State, tag: Tag): int {
    if tag in s.watermark then s.watermark[tag] else 0
  }

  function Passed(s: State, tag: Tag): set<int> {
    if tag in s.passed then s.passed[tag] else {}
  }

  /** The first stored event in the lowest block above the given one. */
  function GetNextEventToValidate(stored: seq<Log>, blockNumber: int): Option<Log> {
    if stored == [] then None
    else
      var last := stored[|stored| - 1];
      var best := GetNextEventToValidate(stored[..|stored| - 1], blockNumber);
      if last.block > blockNumber && (best.Some? ==> last.block < best.value.block) then Some(last) else best
  }

  /**
    Ingestion only adds blocks above what has been validated; validation goes on until a reorganisation is reported.
  */
  ghost predicate Enabled(s: State, a: Action) {
    match a
    case Append(log) => forall tag :: log.block > Watermark(s, tag)
    case Validate(_, _) => s.reported.None?
  }

  function After(s: State, a: Action): State {
    match a
    case Append(log) => s.(stored := s.stored + [log])
    case Validate(tag, oracle) =>
      var next := GetNextEventToValidate(s.stored, Watermark(s, tag));
      if next.None? then s
      else
        match Ask(oracle, next.value)
        case Unreachable => s
        case Canonical =>
          s.(watermark := s.watermark[tag := next.value.block],
             passed := s.passed[tag := Passed(s, tag) + {next.value.block as int}])
        case Orphaned => s.(reported := Some(ReorgEvent(next.value, tag)))
  }

  function Execute(s: State, actions: seq<Action>): State {
    if actions == [] then s
    else After(Execute(s, actions[..|actions| - 1]), actions[|actions| - 1])
  }

  ghost predicate Allowed(s: State, actions: seq<Action>) {
    actions == [] ||
    (Allowed(s, actions[..|actions| - 1]) && Enabled(Execute(s, actions[..|actions| - 1]), actions[|actions| - 1]))
  }

  const START := State([], map[], map[], None)

  lemma {:induction false} NextIsLowest(stored: seq<Log>, blockNumber: int)
    ensures
      var next := GetNextEventToValidate(stored, blockNumber);
      && (next.None? ==> forall e :: e in stored ==> e.block <= blockNumber)
      && (next.Some? ==> next.value in stored && next.value.block > blockNumber)
      && (next.Some? ==> forall e :: e in stored && e.block > blockNumber ==> e.block >= next.value.block)
  {
    if stored != [] {
      NextIsLowest(stored[..|stored| - 1], blockNumber);
      assert stored == stored[..|stored| - 1] + [stored[|stored| - 1]];
    }
  }

  /** Above block zero, a tag's watermark sits on a stored block, and every stored block up to it has passed a check. */
  ghost predicate Validated(s: State, tag: Tag) {
    && Watermark(s, tag) >= 0
    && (forall e :: e in s.stored && 0 < e.block <= Watermark(s, tag) ==> (e.block as int) in Passed(s, tag))
    && (Watermark(s, tag) > 0 ==> exists e :: e in s.stored && e.block == Watermark(s, tag))
  }

  /** A report names the lowest stored block that its tag has not validated. */
  ghost predicate ReportIsLowest(s: State) {
    s.reported.Some? ==>
      var r := s.reported.value;
      && r.event in s.stored && r.event.block > Watermark(s, r.tag)
      && forall e :: e in s.stored && e.block > Watermark(s, r.tag) ==> e.block >= r.event.block
  }

  /**
    One action keeps a tag validated and never lowers its watermark; an update raises it; a new report is the lowest.
  */
  lemma StepKeepsValidated(s: State, a: Action, tag: Tag)
    requires Validated(s, tag) && Enabled(s, a)
    ensures Validated(After(s, a), tag)
    ensures Watermark(After(s, a), tag) >= Watermark(s, tag)
    ensures After(s, a).watermark != s.watermark && a.Validate? && a.tag == tag ==>
      Watermark(After(s, a), tag) > Watermark(s, tag)
    ensures s.reported.None? ==> ReportIsLowest(After(s, a))
  {
    hide Validated, ReportIsLowest;
    match a
    case Append(log) =>
      AppendKeepsValidated(s, log, tag);
      NothingReported(After(s, a));
    case Validate(checked, oracle) =>
      ValidateKeepsValidated(s, checked, oracle, tag);
      ValidateReportsLowest(s, checked, oracle);
  }

  lemma NothingReported(s: State)
    ensures s.reported.None? ==> ReportIsLowest(s)
  {
  }

  lemma ValidateKeepsValidated(s: State, checked: Tag, oracle: Oracle, tag: Tag)
    requires Validated(s, tag)
    ensures
      var u := After(s, Validate(checked, oracle));
      && Validated(u, tag) && Watermark(u, tag) >= Watermark(s, tag)
      && (u.watermark != s.watermark && checked == tag ==> Watermark(u, tag) > Watermark(s, tag))
  {
    hide GetNextEventToValidate;
    NextIsLowest(s.stored, Watermark(s, checked));
  }

  lemma ValidateReportsLowest(s: State, checked: Tag, oracle: Oracle)
    requires s.reported.None?
    ensures ReportIsLowest(After(s, Validate(checked, oracle)))
  {
    hide GetNextEventToValidate;
    NextIsLowest(s.stored, Watermark(s, checked));
  }

  lemma AppendKeepsValidated(s: State, log: Log, tag: Tag)
    requires Validated(s, tag) && Enabled(s, Append(log))
    ensures Validated(After(s, Append(log)), tag)
  {
    var u := After(s, Append(log));
    if Watermark(s, tag) > 0 {
      var e :| e in s.stored && e.block == Watermark(s, tag);
      assert e in u.stored;
    }
  }

  /** Every run keeps both tags validated, and the watermarks never go down. */
  lemma {:induction false} WatermarksAreValidated(actions: seq<Action>, tag: Tag)
    requires Allowed(START, actions)
    ensures Validated(Execute(START, actions), tag)
    ensures forall k :: 0 <= k <= |actions| ==>
      Watermark(Execute(START, actions[..k]), tag) <= Watermark(Execute(START, actions), tag)
  {
    hide Validated, Enabled, After;
    if actions == [] {
      assert Validated(START, tag) by { StartIsValidated(tag); }
    } else {
      var init := actions[..|actions| - 1];
      WatermarksAreValidated(init, tag);
      StepKeepsValidated(Execute(START, init), actions[|actions| - 1], tag);
      forall k | 0 <= k <= |actions|
        ensures Watermark(Execute(START, actions[..k]), tag) <= Watermark(Execute(START, actions), tag)
      {
        if k < |actions| { assert init[..k] == actions[..k]; } else { assert actions[..k] == actions; }
      }
    }
  }

  lemma StartIsValidated(tag: Tag)
    ensures Validated(START, tag)
  {
  }

  /**
    A report after any run: the check that fails is on the lowest unvalidated stored block, and if the blocks this
    tag validated are still accepted and there is one, the search for the last consistent block ends on the watermark.
  */
  lemma ReportLeadsToWatermark(actions: seq<Action>, tag: Tag, oracle: Oracle)
    requires Allowed(START, actions + [Validate(tag, oracle)])
    requires Execute(START, actions).reported.None? && Execute(START, actions + [Validate(tag, oracle)]).reported.Some?
    ensures
      var s := Execute(START, actions);
      var r := Execute(START, actions + [Validate(tag, oracle)]).reported.value;
      && r.tag == tag && r.event in s.stored && Ask(oracle, r.event) == Orphaned
      && r.event.block > Watermark(s, tag)
      && (forall e :: e in s.stored && e.block > Watermark(s, tag) ==> e.block >= r.event.block)
      && (Watermark(s, tag) > 0 &&
          (forall e :: e in s.stored && (e.block as int) in Passed(s, tag) ==> Ask(oracle, e) == Canonical) ==>
            IsLastConsistent(s.stored, oracle, r.event.block, Watermark(s, tag)))
  {
    hide Allowed, Execute;
    LastAction(actions, Validate(tag, oracle));
    var s := Execute(START, actions);
    WatermarksAreValidated(actions, tag);
    NextIsLowest(s.stored, Watermark(s, tag));
  }

  lemma LastAction(actions: seq<Action>, a: Action)
    requires Allowed(START, actions + [a])
    ensures Allowed(START, actions) && Execute(START, actions + [a]) == After(Execute(START, actions), a)
  {
    assert (actions + [a])[..|actions + [a]| - 1] == actions;
  }

  // -------------------------------------------------- what one check achieves

  /** A stored event in the lowest block above the tag's watermark. */
  ghost predicate IsDue(s: State, tag: Tag, e: Log) {
    && e in s.stored && e.block > Watermark(s, tag)
    && forall x :: x in s.stored && x.block > Watermark(s, tag) ==> x.block >= e.block
  }

  /**
    A check is of an event that is due, if there is one. Accepted, the watermark is its block from then on and exactly
    that block has passed; rejected, it is reported under the tag; without an answer or an event nothing changes. The
    other tag and the stored events are never touched.
  */
  lemma CheckMeans(s: State, tag: Tag, oracle: Oracle) returns (due: Option<Log>)
    requires s.reported.None?
    ensures due.None? ==> forall e :: e in s.stored ==> e.block <= Watermark(s, tag)
    ensures due.Some? ==> IsDue(s, tag, due.value)
    ensures
      var u := After(s, Validate(tag, oracle));
      && u.stored == s.stored
      && (forall other :: other != tag ==>
        Watermark(u, other) == Watermark(s, other) && Passed(u, other) == Passed(s, other))
      && (due.None? ==> u == s)
      && (due.Some? ==>
            match oracle(due.value.block, due.value.hash)
            case Canonical =>
              && Watermark(u, tag) == due.value.block && u.reported.None?
              && Passed(u, tag) == Passed(s, tag) + {due.value.block as int}
            case Orphaned =>
              && u.reported == Some(ReorgEvent(due.value, tag))
              && Watermark(u, tag) == Watermark(s, tag) && Passed(u, tag) == Passed(s, tag)
            case Unreachable => u == s)
  {
    hide GetNextEventToValidate;
    NextIsLowest(s.stored, Watermark(s, tag));
    due := GetNextEventToValidate(s.stored, Watermark(s, tag));
  }

  /** The stored blocks above a height. */
  ghost function BlocksAbove(stored: seq<Log>, height: int): set<int> {
    set e | e in stored && e.block > height :: e.block as int
  }

  ghost function Checks(tag: Tag, oracle: Oracle, k: nat): seq<Action> {
    seq(k, i => Validate(tag, oracle))
  }

  /** While everything is accepted, each check takes one block off those above the watermark. */
  lemma {:induction false} EachCheckAdvances(s: State, tag: Tag, oracle: Oracle, k: nat)
    requires s.reported.None? && forall e :: e in s.stored ==> oracle(e.block, e.hash) == Canonical
    requires k <= |BlocksAbove(s.stored, Watermark(s, tag))|
    ensures
      var u := Execute(s, Checks(tag, oracle, k));
      && Allowed(s, Checks(tag, oracle, k)) && u.stored == s.stored && u.reported.None?
      && |BlocksAbove(s.stored, Watermark(u, tag))| == |BlocksAbove(s.stored, Watermark(s, tag))| - k
      && (k > 0 ==> Watermark(u, tag) in BlocksAbove(s.stored, Watermark(s, tag)))
      && Watermark(u, tag) >= Watermark(s, tag)
  {
    hide After, Watermark;
    if k > 0 {
      EachCheckAdvances(s, tag, oracle, k - 1);
      assert Checks(tag, oracle, k)[..k - 1] == Checks(tag, oracle, k - 1);
      var u := Execute(s, Checks(tag, oracle, k - 1));
      var due := CheckMeans(u, tag, oracle);
      OneBlockLess(s.stored, Watermark(u, tag), due);
    }
  }

  lemma OneBlockLess(stored: seq<Log>, height: int, due: Option<Log>)
    requires BlocksAbove(stored, height) != {}
    requires due.None? ==> forall e :: e in stored ==> e.block <= height
    requires due.Some? ==>
      && due.value in stored && due.value.block > height
      && forall x :: x in stored && x.block > height ==> x.block >= due.value.block
    ensures due.Some? && due.value.block as int in BlocksAbove(stored, height)
    ensures BlocksAbove(stored, due.value.block) == BlocksAbove(stored, height) - {due.value.block as int}
  {
    var b :| b in BlocksAbove(stored, height);
  }

  /**
    With a node that accepts everything, as many checks as there are stored blocks above the watermark bring it to the
    highest stored block.
  */
  lemma WatermarkCatchesUp(s: State, tag: Tag, oracle: Oracle)
    requires s.reported.None? && forall e :: e in s.stored ==> oracle(e.block, e.hash) == Canonical
    ensures
      var above := BlocksAbove(s.stored, Watermark(s, tag));
      var u := Execute(s, Checks(tag, oracle, |above|));
      && Allowed(s, Checks(tag, oracle, |above|)) && u.reported.None?
      && (forall e :: e in s.stored ==> e.block <= Watermark(u, tag))
      && (if above == {} then Watermark(u, tag) == Watermark(s, tag) else Watermark(u, tag) in above)
  {
    hide Watermark, Execute, Allowed, After;
    var above := BlocksAbove(s.stored, Watermark(s, tag));
    EachCheckAdvances(s, tag, oracle, |above|);
    var u := Execute(s, Checks(tag, oracle, |above|));
    assert BlocksAbove(s.stored, Watermark(u, tag)) == {};
    forall e | e in s.stored ensures e.block <= Watermark(u, tag) {
      assert e.block as int !in BlocksAbove(s.stored, Watermark(u, tag));
    }
    if above == {} {
      NoChecks(s, tag, oracle);
    }
  }

  lemma NoChecks(s: State, tag: Tag, oracle: Oracle)
    ensures Checks(tag, oracle, 0) == [] && Execute(s, []) == s
  {
  }

  // ------------------------------------------------------------ the program

  /** The check is not passed: the node does not answer, or the event is not on its chain. */
  ghost predicate Stops(s: State, tag: Tag, oracle: Oracle) {
    exists e :: IsDue(s, tag, e) && GetNextEventToValidate(s.stored, Watermark(s, tag)) == Some(e)
      && oracle(e.block, e.hash) != Canonical
  }

  class FinalityProcessor {
    var watermark: map<Tag, int>
    var reported: Option<ReorgEvent>
    ghost var passed: map<Tag, set<int>>

    constructor ()
      ensures Now([]) == START
    {
      watermark, reported, passed := map[], None, map[];
    }

    ghost function Now(stored: seq<Log>): State
      reads this
    {
      State(stored, watermark, passed, reported)
    }

    /** One tag's turn in the loop; it goes on unless the node failed or a reorganisation was reported. */
    method ValidateTag(tag: Tag, stored: seq<Log>, oracle: Oracle) returns (goesOn: bool)
      modifies this
      ensures Now(stored) == After(old(Now(stored)), Validate(tag, oracle))
      ensures goesOn <==> !old(Stops(Now(stored), tag, oracle))
      ensures goesOn ==> reported == old(reported)
    {
      NextIsLowest(stored, Watermark(Now(stored), tag));
      var lastValidatedBlockNumber := if tag in watermark then watermark[tag] else 0;
      var event := GetNextEventToValidate(stored, lastValidatedBlockNumber);
      if event.None? {
        return true;
      }
      match Ask(oracle, event.value) {
        case Unreachable => return false;
        case Canonical =>
          passed := passed[tag := (if tag in passed then passed[tag] else {}) + {event.value.block as int}];
          watermark := watermark[tag := event.value.block];
          return true;
        case Orphaned =>
          reported := Some(ReorgEvent(event.value, tag));
          return false;
      }
    }

    /** Both tags in turn, as long as nothing stops the loop. */
    method Round(stored: seq<Log>, oracle: Oracle) returns (goesOn: bool, ghost trace: seq<Action>)
      requires reported.None?
      modifies this
      ensures Now(stored) == Execute(old(Now(stored)), trace) && Allowed(old(Now(stored)), trace)
      ensures 1 <= |trace| <= 2 && trace <= [Validate(Finalized, oracle), Validate(Safe, oracle)]
      ensures goesOn ==> reported.None?
      ensures |trace| == 1 <==> old(Stops(Now(stored), Finalized, oracle))
      ensures goesOn <==>
        |trace| == 2 && !Stops(After(old(Now(stored)), Validate(Finalized, oracle)), Safe, oracle)
    {
      hide After, Stops;
      ghost var start := Now(stored);
      var blockTags := [Finalized, Safe];
      trace := [];
      ghost var plan := [Validate(Finalized, oracle), Validate(Safe, oracle)];
      for i := 0 to 2
        invariant reported.None? && trace == plan[..i]
        invariant Now(stored) == Execute(start, trace) && Allowed(start, trace)
        invariant i >= 1 ==>
          !Stops(start, Finalized, oracle) && (i == 2 ==> !Stops(After(start, plan[0]), Safe, oracle))
        invariant Now(stored) ==
          if i == 0 then start else if i == 1 then After(start, plan[0]) else After(After(start, plan[0]), plan[1])
      {
        goesOn := ValidateTag(blockTags[i], stored, oracle);
        trace := trace + [Validate(blockTags[i], oracle)];
        assert trace[..|trace| - 1] == plan[..i] && trace == plan[..i + 1];
        if !goesOn {
          return;
        }
      }
      return true, trace;
    }
  }
}
