/** A command handler reads the clock up to twice. What the results about runs with one reading per command say
    about runs with two. */
module Readings {
  import opened Text
  import opened Keyspace
  import opened Commands
  import opened Stores
  import opened TimedMap

  /** An event with both clock readings of its handler, and whether a SAVE manages to write the file. */
  datatype Occasion = Occasion(now: nat, later: nat, saved: bool, action: Action)

  function StepBetween(s: State, o: Occasion): (State, Reply) {
    match o.action
    case Do(cmd) => ExecCommandBetween(s, o.now, o.later, o.saved, cmd)
    case SweepTick => (Sweep(s, o.now), Silent)
  }

  /** The deadline of a stored key passes between the two readings. */
  predicate DiesBetween(s: State, now: nat, later: nat, key: string) {
    Has(s, key) && key in s.expiry && now < s.expiry[key] <= later
  }

  /** An EXPIRE whose key dies in between, and a TTL of one that had a second or more left. */
  predicate Straddles(s: State, now: nat, later: nat, req: Request) {
    match req
    case ExpireReq(key, _) => DiesBetween(s, now, later, key)
    case TtlReq(key) => DiesBetween(s, now, later, key) && s.expiry[key] - now >= 1000
    case _ => false
  }

  // ----- one command -----

  lemma PurgeLater(s: State, now: nat, later: nat, key: string)
    requires now <= later
    ensures var p, q := Purge(s, now, key), Purge(s, later, key);
            && Purge(p, later, key) == q && Purge(q, later, key) == q && !IsExpired(q, later, key)
            && (IsExpired(p, later, key) ==> key !in q.strings && key !in q.lists)
            && (TypeOf(s, later, key) == TypeOf(s, now, key) || TypeOf(s, later, key) == NoKey)
            && (IsExpired(s, now, key) ==> p == q && IsExpired(s, later, key))
            && (!IsExpired(s, later, key) ==> p == s == q)
  {
    hide EraseNode;
    PurgeFrame(s, now, key);
    PurgeFrame(s, later, key);
  }

  /** A wrong type is refused as of the first reading; otherwise the answer is that of the second. */
  lemma GetBetween(s: State, now: nat, later: nat, key: string)
    requires now <= later
    ensures ExecBetween(s, now, later, GetReq(key)) ==
            if TypeOf(s, now, key) == ListKey then Exec(s, now, GetReq(key)) else Exec(s, later, GetReq(key))
  {
    hide Purge, Touch;
    PurgeLater(s, now, later, key);
  }

  lemma ListBetween(s: State, now: nat, later: nat, key: string, front: bool)
    requires now <= later
    ensures ExecBetween(s, now, later, PopReq(key, front)) ==
            if TypeOf(s, now, key) == StringKey then Exec(s, now, PopReq(key, front))
            else Exec(s, later, PopReq(key, front))
    ensures ExecBetween(s, now, later, LLenReq(key)) ==
            if TypeOf(s, now, key) == StringKey then Exec(s, now, LLenReq(key)) else Exec(s, later, LLenReq(key))
  {
    hide Purge, Shrink;
    PurgeLater(s, now, later, key);
  }

  lemma ExpireStraddlesIff(s: State, now: nat, later: nat, key: string, seconds: nat)
    requires now <= later
    ensures var req := ExpireReq(key, seconds);
            var x := ExecBetween(s, now, later, req);
            x == Exec(s, now, req) || x == Exec(s, later, req) <==> !DiesBetween(s, now, later, key)
  {
    hide Purge;
    var req, u := ExpireReq(key, seconds), s.(undefined := s.undefined || seconds * 1000 > LLONG_MAX);
    PurgeLater(u, now, later, key);
    PurgeFrame(u, now, key);
    if DiesBetween(s, now, later, key) {
      assert Purge(u, now, key) == u by { NotYetExpired(u, now, key); }
      assert Exec(s, later, req).1 == Integer(0);
      assert ExecBetween(s, now, later, req).0.expiry[key] == later + seconds * 1000;
      assert Exec(s, now, req).0.expiry[key] == now + seconds * 1000;
    }
  }

  lemma NotYetExpired(s: State, now: nat, key: string)
    requires !IsExpired(s, now, key)
    ensures Purge(s, now, key) == s
  {
  }

  lemma TtlStraddlesIff(s: State, now: nat, later: nat, key: string)
    requires now <= later
    ensures var req := TtlReq(key);
            var x := ExecBetween(s, now, later, req);
            x == Exec(s, now, req) || x == Exec(s, later, req) <==> !Straddles(s, now, later, req)
  {
    hide Purge;
    PurgeLater(s, now, later, key);
    if !IsExpired(s, now, key) {
      NotYetExpired(s, now, key);
    }
  }

  /** A handler that reads the clock twice does what it would do with one of the readings alone, exactly when
      it is not one of those two. */
  lemma BetweenIff(s: State, now: nat, later: nat, req: Request)
    requires now <= later
    ensures var x := ExecBetween(s, now, later, req);
            x == Exec(s, now, req) || x == Exec(s, later, req) <==> !Straddles(s, now, later, req)
  {
    hide ExecBetween, Exec, DiesBetween;
    match req {
      case GetReq(key) => GetBetween(s, now, later, key);
      case PopReq(key, front) => ListBetween(s, now, later, key, front);
      case LLenReq(key) => ListBetween(s, now, later, key, true);
      case ExpireReq(key, seconds) => ExpireStraddlesIff(s, now, later, key, seconds);
      case TtlReq(key) => TtlStraddlesIff(s, now, later, key);
      case _ => OtherBetween(s, now, later, req);
    }
  }

  lemma OtherBetween(s: State, now: nat, later: nat, req: Request)
    requires req.SetReq? || req.DelReq? || req.ExistsReq? || req.PushReq? || req.Immediate?
    ensures ExecBetween(s, now, later, req) == Exec(s, now, req)
  {
  }

  /** SAVE touches no key, and says whether the file was written. */
  lemma SaveAnswers(s: State, now: nat, later: nat, saved: bool, cmd: Command)
    requires |cmd| == 1 && Upper(cmd[0]) == "SAVE"
    ensures var x := ExecCommandBetween(s, now, later, saved, cmd);
            x.0 == s && (saved ==> x.1 == Simple("OK")) && (!saved ==> x.1.Error?)
  {
    hide Upper;
  }

  // ----- runs -----

  predicate Settled(s: State, o: Occasion) {
    o.action.Do? && o.action.cmd != [] ==>
      !(IsSave(o.action.cmd) && !o.saved) && !Straddles(s, o.now, o.later, Classify(o.action.cmd))
  }

  predicate SettledRun(s: State, os: seq<Occasion>)
    decreases |os|
  {
    os != [] ==> Settled(s, os[0]) && SettledRun(StepBetween(s, os[0]).0, os[1..])
  }

  /** The readings never go back. */
  predicate Ordered(t: nat, os: seq<Occasion>)
    decreases |os|
  {
    os != [] ==> t <= os[0].now <= os[0].later && Ordered(os[0].later, os[1..])
  }

  function RunBetween(s: State, os: seq<Occasion>): State
    decreases |os|
  {
    if os == [] then s else RunBetween(StepBetween(s, os[0]).0, os[1..])
  }

  function RepliesBetween(s: State, os: seq<Occasion>): seq<Reply>
    decreases |os|
  {
    if os == [] then [] else [StepBetween(s, os[0]).1] + RepliesBetween(StepBetween(s, os[0]).0, os[1..])
  }

  /** The reading that explains what an event did. */
  function Picked(s: State, o: Occasion): Event {
    if StepBetween(s, o) == Step(s, Event(o.now, o.action)) then Event(o.now, o.action) else Event(o.later, o.action)
  }

  function PickedRun(s: State, os: seq<Occasion>): (es: seq<Event>)
    ensures |es| == |os|
    decreases |os|
  {
    if os == [] then [] else [Picked(s, os[0])] + PickedRun(StepBetween(s, os[0]).0, os[1..])
  }

  lemma StepIsPicked(s: State, o: Occasion)
    requires o.now <= o.later && Settled(s, o)
    ensures StepBetween(s, o) == Step(s, Picked(s, o))
  {
    hide ExecBetween, Exec, Classify, Straddles;
    if o.action.Do? && o.action.cmd != [] {
      BetweenIff(s, o.now, o.later, Classify(o.action.cmd));
    }
  }

  lemma PickedTail(s: State, os: seq<Occasion>)
    requires os != []
    ensures PickedRun(s, os)[0] == Picked(s, os[0])
    ensures PickedRun(s, os)[1..] == PickedRun(StepBetween(s, os[0]).0, os[1..])
  {
  }

  lemma {:induction false} OrderedEarlier(t: nat, u: nat, es: seq<Event>)
    requires ClockFrom(u, es) && t <= u
    ensures ClockFrom(t, es)
  {
  }

  /** A run with two readings per command is a run with one of them each, with the same replies and a clock that
      never goes back: everything that is proved about those holds of it. */
  lemma {:induction false} RunIsPicked(s: State, t: nat, os: seq<Occasion>)
    requires Ordered(t, os) && SettledRun(s, os)
    ensures var es := PickedRun(s, os);
            && RunBetween(s, os) == Run(s, es) && RepliesBetween(s, os) == Replies(s, es) && ClockFrom(t, es)
    decreases |os|
  {
    hide StepBetween, Step, Settled, Picked;
    if os != [] {
      var o, u := os[0], StepBetween(s, os[0]).0;
      StepIsPicked(s, o);
      PickedTail(s, os);
      RunIsPicked(u, o.later, os[1..]);
      PickedTime(s, o);
      OrderedEarlier(Picked(s, o).now, o.later, PickedRun(u, os[1..]));
    }
  }

  lemma PickedTime(s: State, o: Occasion)
    requires o.now <= o.later
    ensures o.now <= Picked(s, o).now <= o.later
  {
    hide StepBetween, Step;
  }

  /** So the replies and the live view of such a run are those of the unbounded map, when no live key is evicted. */
  lemma TransparentBetween(s: State, m: Timed, t: nat, os: seq<Occasion>, later: nat)
    requires Consistent(s) && Live(Contents(s), t) == Live(m, t)
    requires Ordered(t, os) && SettledRun(s, os)
    requires LosesNothingRun(s, PickedRun(s, os)) && LastTime(t, PickedRun(s, os)) <= later
    ensures RepliesBetween(s, os) == RefReplies(m, PickedRun(s, os))
    ensures Live(Contents(RunBetween(s, os)), later) == Live(RefRun(m, PickedRun(s, os)), later)
  {
    hide Run, Replies, RunBetween, RepliesBetween, PickedRun, Contents, Live, Consistent, LosesNothingRun, SettledRun,
      Ordered, ClockFrom;
    RunIsPicked(s, t, os);
    RunTransparent(s, m, t, PickedRun(s, os), later);
  }
}
