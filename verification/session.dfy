/** The main loop of the lane judge: start the timer, then for each run
    classify what `get_times` returned, save good races into the history,
    recover a broken link, and ask the operator whether to go on. */
module Session {
  import opened Common
  import Banner
  import RaceTimes
  import Reconnect
  import History

  /** The three paths main takes on `get_times`' return value. */
  datatype Outcome = Good(winner: int) | NullRace | LinkFailure

  function Classify(code: int): (o: Outcome)
    ensures o.Good? <==> code > 0
    ensures o.NullRace? <==> code == 0
    ensures o.LinkFailure? <==> code < 0
    ensures o.Good? ==> o.winner == code
  {
    if code > 0 then Good(code) else if code == 0 then NullRace else LinkFailure
  }

  /** `rearm_timer`: the bytes written to the port to ready the timer; none
      in debug mode. */
  function RearmBytes(debug: bool): (bytes: seq<char>)
    ensures debug <==> |bytes| == 0
    ensures !debug ==> bytes == [' ']
  {
    if debug then [] else [' ']
  }

  /** The operator's answer ends the session when `strchr` finds an 'x' or an
      'X' in it, that is, one with no NUL ahead of it. */
  function WantsExit(buf: seq<char>): (b: bool)
    ensures b <==> || (exists i :: 0 <= i < |buf| && buf[i] == 'x' && '\0' !in buf[..i])
                   || (exists i :: 0 <= i < |buf| && buf[i] == 'X' && '\0' !in buf[..i])
  {
    CStringFinds(buf, 'x');
    CStringFinds(buf, 'X');
    'x' in CString(buf) || 'X' in CString(buf)
  }

  /** The operator buffer after a prompt: the answer, or the old contents when
      fgets failed. */
  function Answer(buf: seq<char>, answer: Option<seq<char>>): seq<char> {
    if answer.Some? then answer.value else buf
  }

  /** The state main carries from one run to the next. `times` is its results
      array, `operator` the buffer its operator prompts read into. */
  datatype Session = Session(lanes: nat, debug: bool, port: Reconnect.Handle, times: seq<int>,
                             history: History.History, operator: seq<char>)

  predicate Valid(s: Session) {
    1 <= s.lanes <= MaxLanes && |s.times| == MaxLanes && History.Valid(s.history)
  }

  /** What one pass of the loop consumes: the result line fgets delivers (None:
      the read failed), the recovery rounds, should recovery run, and the
      operator's answer (None: fgets failed and left the buffer as it was). */
  datatype Round = Round(line: Option<seq<RaceTimes.Pair>>, attempts: seq<Reconnect.Attempt>,
                         operator: Option<seq<char>>)

  /** The result line names only lanes the timer has, where it is read. */
  predicate Admissible(lanes: nat, r: Round) {
    r.line.Some? ==> RaceTimes.LanesInRange(r.line.value, lanes)
  }

  /** One pass of the loop: the pass either ends (with the state for the next
      pass, the rows it displayed, the handles recovery closed, the bytes it
      wrote and whether the operator asked to exit) or is still waiting in
      recovery when the rounds given run out. */
  datatype Pass =
    | Waiting(closed: seq<Reconnect.Handle>)
    | Done(next: Session, outcome: Outcome, shown: seq<seq<int>>,
           closed: seq<Reconnect.Handle>, written: seq<char>, exit: bool)

  /** The operator prompt at the foot of the loop, then the rearm unless the
      operator asked to exit. */
  function Finish(s: Session, outcome: Outcome, shown: seq<seq<int>>, closed: seq<Reconnect.Handle>,
                  answer: Option<seq<char>>): (p: Pass)
    ensures p.Done? && p.outcome == outcome && p.shown == shown && p.closed == closed
    ensures p.next == s.(operator := p.next.operator)
    ensures answer.Some? ==> p.next.operator == answer.value
    ensures answer.None? ==> p.next.operator == s.operator
    ensures p.exit <==> 'x' in CString(p.next.operator) || 'X' in CString(p.next.operator)
    ensures p.written == if p.exit || s.debug then [] else [' ']
  {
    var buf := if answer.Some? then answer.value else s.operator;
    var exit := WantsExit(buf);
    Done(s.(operator := buf), outcome, shown, closed, if exit then [] else RearmBytes(s.debug), exit)
  }

  /** One pass of main's `while (1)` loop. */
  function Step(s: Session, r: Round): (p: Pass)
    requires Valid(s) && Admissible(s.lanes, r)
    ensures var code := RaceTimes.Decode(r.line, s.lanes, s.times).code;
      && (p.Waiting? <==> code < 0 && Reconnect.ReinitTimer(s.port, r.attempts, s.lanes).handle.None?)
      && (p.Done? ==> && Valid(p.next)
                      && p.next.lanes == s.lanes && p.next.debug == s.debug
                      && p.outcome == Classify(code)
                      && (p.next.history != s.history <==> code > 0)
                      && (code <= 0 ==> p.next.history == s.history && p.shown == [])
                      && (code >= 0 ==> p.next.port == s.port && p.closed == [])
                      && (p.exit <==> WantsExit(p.next.operator))
                      && p.written == (if p.exit || s.debug then [] else [' ']))
    ensures p.Done? ==> p.next.times == RaceTimes.Decode(r.line, s.lanes, s.times).times
    ensures p.Done? ==> p.next.operator == (if r.operator.Some? then r.operator.value else s.operator)
    ensures p.Done? && RaceTimes.Decode(r.line, s.lanes, s.times).code > 0 ==>
      var times := RaceTimes.Decode(r.line, s.lanes, s.times).times;
      && p.next.history == History.Push(s.history, s.lanes, times)
      && |p.shown| == HistorySlots
      && p.shown[0] == times[..s.lanes]
      && p.shown[1..] == History.Previous(p.next.history, s.history.head, s.lanes)
    ensures p.Done? && RaceTimes.Decode(r.line, s.lanes, s.times).code < 0 ==>
      && p.closed == Reconnect.ReinitTimer(s.port, r.attempts, s.lanes).closed
      && Reconnect.ReinitTimer(s.port, r.attempts, s.lanes).handle == Some(p.next.port)
      && exists k :: 0 <= k < |r.attempts| && r.attempts[k].Opened? && r.attempts[k].handle == p.next.port
                     && Reconnect.Accepts(r.attempts[k], s.lanes)
    ensures p.Waiting? ==> p.closed == Reconnect.ReinitTimer(s.port, r.attempts, s.lanes).closed
  {
    var reading := RaceTimes.Decode(r.line, s.lanes, s.times);
    var s1 := s.(times := reading.times);
    match Classify(reading.code)
    case Good(winner) =>
      var h := History.Push(s.history, s.lanes, reading.times);
      var written := s.history.head;
      var shown := [History.Entry(h, written, s.lanes)] + History.Previous(h, written, s.lanes);
      History.WrittenEntry(s.history, s.lanes, reading.times);
      assert shown[1..] == History.Previous(h, written, s.lanes);
      Finish(s1.(history := h), Good(winner), shown, [], r.operator)
    case NullRace =>
      Finish(s1, NullRace, [], [], r.operator)
    case LinkFailure =>
      var rec := Reconnect.ReinitTimer(s.port, r.attempts, s.lanes);
      if rec.handle.None? then Waiting(rec.closed)
      else
        assert r.attempts[rec.rounds - 1].Opened?;
        Finish(s1.(port := rec.handle.value), LinkFailure, [], rec.closed, r.operator)
  }

  /** A results array with every slot cleared. */
  const Cleared: seq<int> := [0, 0, 0, 0]

  /** The lane times of the good races among the first `n` rounds, in order,
      each decided by its result line alone: a round is a good race iff its
      line decodes to a positive code, whatever state the session is in
      (`RaceTimes.DecodeIgnoresOldLanes`). */
  function GoodRaces(lanes: nat, rounds: seq<Round>, n: nat): (goods: seq<seq<int>>)
    requires 1 <= lanes <= MaxLanes && n <= |rounds|
    requires forall k :: 0 <= k < |rounds| ==> Admissible(lanes, rounds[k])
    ensures |goods| <= n
    ensures forall k :: 0 <= k < |goods| ==> |goods[k]| == lanes
  {
    if n == 0 then []
    else
      assert Admissible(lanes, rounds[0]);
      var d := RaceTimes.Decode(rounds[0].line, lanes, Cleared);
      (if d.code > 0 then [d.times[..lanes]] else []) + GoodRaces(lanes, rounds[1..], n - 1)
  }

  /** A pass stays in recovery when the line decodes to a negative code and no
      round given reopens the port with the session's lane count. */
  predicate Stalls(lanes: nat, r: Round)
    requires 1 <= lanes <= MaxLanes && Admissible(lanes, r)
  {
    RaceTimes.Decode(r.line, lanes, Cleared).code < 0
    && forall k :: 0 <= k < |r.attempts| ==> !Reconnect.Accepts(r.attempts[k], lanes)
  }

  /** The operator buffer after the first `n` rounds: the last answer fgets
      delivered among them, or `op` when every one of those reads failed. */
  function OperatorAfter(op: seq<char>, rounds: seq<Round>, n: nat): seq<char>
    requires n <= |rounds|
  {
    if n == 0 then op
    else if rounds[n - 1].operator.Some? then rounds[n - 1].operator.value
    else OperatorAfter(op, rounds, n - 1)
  }

  /** Reading the rounds after the first from the buffer the first one left
      is reading them all from the start. */
  lemma {:induction false} OperatorAfterShift(op: seq<char>, rounds: seq<Round>, m: nat)
    requires m < |rounds|
    ensures OperatorAfter(Answer(op, rounds[0].operator), rounds[1..], m) == OperatorAfter(op, rounds, m + 1)
  {
    if m > 0 {
      OperatorAfterShift(op, rounds, m - 1);
      assert rounds[1..][m - 1] == rounds[m];
    }
  }

  /** What a run needs to know of one pass over `r`: whether it stays in
      recovery, whether it was a good race and with which lane times (both
      decided by the line alone), how it changed the history, and whether the
      operator asked to exit. */
  predicate PassSummary(s: Session, r: Round, p: Pass)
    requires Valid(s) && Admissible(s.lanes, r)
  {
    && (p.Waiting? <==> Stalls(s.lanes, r))
    && (p.Done? ==>
          var d := RaceTimes.Decode(r.line, s.lanes, Cleared);
          && Valid(p.next) && p.next.lanes == s.lanes && p.next.debug == s.debug
          && (p.outcome.Good? <==> d.code > 0)
          && p.next.history == (if d.code > 0 then History.Push(s.history, s.lanes, d.times[..s.lanes])
                                else s.history)
          && (d.code > 0 ==> p.next.times[..s.lanes] == d.times[..s.lanes])
          && p.next.operator == Answer(s.operator, r.operator)
          && (p.exit <==> WantsExit(p.next.operator)))
  }

  /** Every pass `Step` makes fits that summary. */
  lemma PassFacts(s: Session, r: Round)
    requires Valid(s) && Admissible(s.lanes, r)
    ensures PassSummary(s, r, Step(s, r))
  {
    var p := Step(s, r);
    var d := RaceTimes.Decode(r.line, s.lanes, Cleared);
    RaceTimes.DecodeIgnoresOldLanes(r.line, s.lanes, s.times, Cleared);
    if r.line.Some? && p.Done? {
      History.PushReadsOwnLanes(s.history, s.lanes, p.next.times, d.times[..s.lanes]);
    }
  }

  /** Where a run of passes ended: the last state, the lane times of the good
      races in order, how many passes completed, and whether it stopped (exit,
      or waiting in recovery) before the rounds ran out. */
  datatype Run = Run(last: Session, goods: seq<seq<int>>, passes: nat, stopped: bool)

  /** What a run over `rounds` from `s` promises: the lane count is kept, the
      saved races are the good races among the passes it completed, in order,
      and it stops early exactly when a pass stalls in recovery or the
      operator asks to exit. */
  predicate RunFits(s: Session, rounds: seq<Round>, res: Run)
    requires Valid(s)
    requires forall k :: 0 <= k < |rounds| ==> Admissible(s.lanes, rounds[k])
  {
    && Valid(res.last) && res.last.lanes == s.lanes && res.last.debug == s.debug
    && res.passes <= |rounds| && (res.passes == 0 ==> res.last == s)
    && res.goods == GoodRaces(s.lanes, rounds, res.passes)
    && res.last.history == History.PushAll(s.history, s.lanes, res.goods)
    && (!res.stopped ==> res.passes == |rounds|)
    && res.last.operator == OperatorAfter(s.operator, rounds, res.passes)
    && (forall k :: 0 <= k < res.passes ==> !Stalls(s.lanes, rounds[k]))
    && (forall k :: 1 <= k < res.passes ==> !WantsExit(OperatorAfter(s.operator, rounds, k)))
    && (res.stopped <==> || (res.passes < |rounds| && Stalls(s.lanes, rounds[res.passes]))
                         || (0 < res.passes && WantsExit(res.last.operator)))
  }

  /** The loop over a finite sequence of rounds. */
  function RunRounds(s: Session, rounds: seq<Round>): (res: Run)
    requires Valid(s)
    requires forall k :: 0 <= k < |rounds| ==> Admissible(s.lanes, rounds[k])
    ensures Valid(res.last) && res.last.lanes == s.lanes && res.last.debug == s.debug
    ensures res.passes <= |rounds| && (res.passes == 0 ==> res.last == s)
    ensures res.goods == GoodRaces(s.lanes, rounds, res.passes)
    ensures res.last.history == History.PushAll(s.history, s.lanes, res.goods)
    ensures !res.stopped ==> res.passes == |rounds|
    ensures res.last.operator == OperatorAfter(s.operator, rounds, res.passes)
    ensures forall k :: 0 <= k < res.passes ==> !Stalls(s.lanes, rounds[k])
    ensures forall k :: 1 <= k < res.passes ==> !WantsExit(OperatorAfter(s.operator, rounds, k))
    ensures res.stopped <==> || (res.passes < |rounds| && Stalls(s.lanes, rounds[res.passes]))
                             || (0 < res.passes && WantsExit(res.last.operator))
    decreases |rounds|, 1
  {
    if |rounds| == 0 then Run(s, [], 0, false)
    else
      assert Admissible(s.lanes, rounds[0]);
      PassFacts(s, rounds[0]);
      var res := Resume(s, rounds, Step(s, rounds[0]));
      assert RunFits(s, rounds, res);
      res
  }

  /** The rest of the loop once the pass `p` over the first round is known. */
  function Resume(s: Session, rounds: seq<Round>, p: Pass): (res: Run)
    requires Valid(s) && |rounds| > 0
    requires forall k :: 0 <= k < |rounds| ==> Admissible(s.lanes, rounds[k])
    requires PassSummary(s, rounds[0], p)
    ensures RunFits(s, rounds, res)
    decreases |rounds|, 0
  {
    if p.Waiting? then Run(s, [], 0, true)
    else
      var e := if p.outcome.Good? then [p.next.times[..s.lanes]] else [];
      if p.exit then
        ExitFits(s, rounds, p);
        Run(p.next, e, 1, true)
      else
        var rest := RunRounds(p.next, rounds[1..]);
        assert RunFits(p.next, rounds[1..], rest);
        ContinueFits(s, rounds, p, rest);
        Run(rest.last, e + rest.goods, rest.passes + 1, rest.stopped)
  }

  /** A pass where the operator asks to exit ends the run after it. */
  lemma ExitFits(s: Session, rounds: seq<Round>, p: Pass)
    requires Valid(s) && |rounds| > 0
    requires forall k :: 0 <= k < |rounds| ==> Admissible(s.lanes, rounds[k])
    requires PassSummary(s, rounds[0], p) && p.Done? && p.exit
    ensures RunFits(s, rounds, Run(p.next, if p.outcome.Good? then [p.next.times[..s.lanes]] else [], 1, true))
  {
    var t := p.next.times[..s.lanes];
    assert [t][..0] == [];
    assert GoodRaces(s.lanes, rounds[1..], 0) == [];
  }

  /** A pass that does not stop the run hands over to the rest of it. */
  lemma ContinueFits(s: Session, rounds: seq<Round>, p: Pass, rest: Run)
    requires Valid(s) && |rounds| > 0
    requires forall k :: 0 <= k < |rounds| ==> Admissible(s.lanes, rounds[k])
    requires PassSummary(s, rounds[0], p) && p.Done? && !p.exit
    requires RunFits(p.next, rounds[1..], rest)
    ensures RunFits(s, rounds, Run(rest.last, (if p.outcome.Good? then [p.next.times[..s.lanes]] else []) + rest.goods,
                                   rest.passes + 1, rest.stopped))
  {
    ContinueSaves(s, rounds, p, rest);
    ContinueStops(s, rounds, p, rest);
    ContinueAnswers(s, rounds, p, rest);
  }

  /** The races saved by a run whose first pass does not stop it. */
  lemma ContinueSaves(s: Session, rounds: seq<Round>, p: Pass, rest: Run)
    requires Valid(s) && |rounds| > 0
    requires forall k :: 0 <= k < |rounds| ==> Admissible(s.lanes, rounds[k])
    requires PassSummary(s, rounds[0], p) && p.Done? && !p.exit
    requires RunFits(p.next, rounds[1..], rest)
    ensures var goods := (if p.outcome.Good? then [p.next.times[..s.lanes]] else []) + rest.goods;
      && goods == GoodRaces(s.lanes, rounds, rest.passes + 1)
      && rest.last.history == History.PushAll(s.history, s.lanes, goods)
  {
    ContinueGoods(s, rounds, p, rest);
    ContinueHistory(s, rounds, p, rest);
  }

  /** The first pass's race, if good, goes ahead of the rest of the run's. */
  lemma ContinueGoods(s: Session, rounds: seq<Round>, p: Pass, rest: Run)
    requires Valid(s) && |rounds| > 0
    requires forall k :: 0 <= k < |rounds| ==> Admissible(s.lanes, rounds[k])
    requires PassSummary(s, rounds[0], p) && p.Done? && !p.exit
    requires RunFits(p.next, rounds[1..], rest)
    ensures rest.passes < |rounds|
    ensures (if p.outcome.Good? then [p.next.times[..s.lanes]] else []) + rest.goods
            == GoodRaces(s.lanes, rounds, rest.passes + 1)
  {
    var d := RaceTimes.Decode(rounds[0].line, s.lanes, Cleared);
    assert (if p.outcome.Good? then [p.next.times[..s.lanes]] else [])
           == (if d.code > 0 then [d.times[..s.lanes]] else []);
    GoodRacesFirst(s.lanes, rounds, rest.passes);
  }

  /** The history pushes the first pass's race, if good, before the rest's. */
  lemma ContinueHistory(s: Session, rounds: seq<Round>, p: Pass, rest: Run)
    requires Valid(s) && |rounds| > 0
    requires forall k :: 0 <= k < |rounds| ==> Admissible(s.lanes, rounds[k])
    requires PassSummary(s, rounds[0], p) && p.Done? && !p.exit
    requires RunFits(p.next, rounds[1..], rest)
    ensures var goods := (if p.outcome.Good? then [p.next.times[..s.lanes]] else []) + rest.goods;
      && (forall k :: 0 <= k < |goods| ==> |goods[k]| >= s.lanes)
      && rest.last.history == History.PushAll(s.history, s.lanes, goods)
  {
    var e := if p.outcome.Good? then [p.next.times[..s.lanes]] else [];
    assert p.next.history == (if |e| == 1 then History.Push(s.history, s.lanes, e[0]) else s.history);
    SavedAfterFirst(s.history, s.lanes, e, rest.goods);
  }

  /** The good races among the first `n + 1` rounds are the first round's, if
      it was one, ahead of those among the next `n`. */
  lemma GoodRacesFirst(lanes: nat, rounds: seq<Round>, n: nat)
    requires 1 <= lanes <= MaxLanes && n < |rounds|
    requires forall k :: 0 <= k < |rounds| ==> Admissible(lanes, rounds[k])
    requires Admissible(lanes, rounds[0])
    ensures var d := RaceTimes.Decode(rounds[0].line, lanes, Cleared);
      GoodRaces(lanes, rounds, n + 1) == (if d.code > 0 then [d.times[..lanes]] else []) + GoodRaces(lanes, rounds[1..], n)
  {
  }

  /** Saving at most one race `e` and then `goods` is saving `e + goods`. */
  lemma SavedAfterFirst(h: History.History, lanes: nat, e: seq<seq<int>>, goods: seq<seq<int>>)
    requires History.Valid(h) && 1 <= lanes <= MaxLanes && |e| <= 1
    requires forall k :: 0 <= k < |e| ==> |e[k]| >= lanes
    requires forall k :: 0 <= k < |goods| ==> |goods[k]| >= lanes
    ensures forall k :: 0 <= k < |e + goods| ==> |(e + goods)[k]| >= lanes
    ensures History.PushAll(if |e| == 1 then History.Push(h, lanes, e[0]) else h, lanes, goods)
            == History.PushAll(h, lanes, e + goods)
  {
    if |e| == 1 {
      History.PushAllCons(h, lanes, e[0], goods);
      assert e == [e[0]];
    } else {
      assert e + goods == goods;
    }
  }

  /** When a run whose first pass does not stop it stops. */
  lemma ContinueStops(s: Session, rounds: seq<Round>, p: Pass, rest: Run)
    requires Valid(s) && |rounds| > 0
    requires forall k :: 0 <= k < |rounds| ==> Admissible(s.lanes, rounds[k])
    requires PassSummary(s, rounds[0], p) && p.Done? && !p.exit
    requires RunFits(p.next, rounds[1..], rest)
    ensures rest.passes + 1 <= |rounds|
    ensures rest.stopped <==> || (rest.passes + 1 < |rounds| && Stalls(s.lanes, rounds[rest.passes + 1]))
                              || WantsExit(rest.last.operator)
    ensures forall k :: 0 <= k < rest.passes + 1 ==> !Stalls(s.lanes, rounds[k])
  {
    assert rest.passes + 1 < |rounds| ==> rounds[rest.passes + 1] == rounds[1..][rest.passes];
    assert forall k :: 1 <= k < rest.passes + 1 ==> rounds[k] == rounds[1..][k - 1];
  }

  /** The operator buffer of a run whose first pass does not stop it, and
      that no pass before its last asked to exit. */
  lemma ContinueAnswers(s: Session, rounds: seq<Round>, p: Pass, rest: Run)
    requires Valid(s) && |rounds| > 0
    requires forall k :: 0 <= k < |rounds| ==> Admissible(s.lanes, rounds[k])
    requires PassSummary(s, rounds[0], p) && p.Done? && !p.exit
    requires RunFits(p.next, rounds[1..], rest)
    ensures rest.passes + 1 <= |rounds|
    ensures rest.last.operator == OperatorAfter(s.operator, rounds, rest.passes + 1)
    ensures forall k :: 1 <= k < rest.passes + 1 ==> !WantsExit(OperatorAfter(s.operator, rounds, k))
  {
    var op := p.next.operator;
    assert op == Answer(s.operator, rounds[0].operator) && !WantsExit(op);
    assert rest.last.operator == OperatorAfter(op, rounds[1..], rest.passes);
    OperatorAfterShift(s.operator, rounds, rest.passes);
    NoEarlierExit(s.operator, rounds, rest.passes);
  }

  /** If the first answer does not ask to exit, and no answer the rest of the
      rounds leave before their `m`-th does, then none before the `m + 1`-th
      does when the rounds are read from the start. */
  lemma NoEarlierExit(op: seq<char>, rounds: seq<Round>, m: nat)
    requires m < |rounds|
    requires !WantsExit(Answer(op, rounds[0].operator))
    requires forall k :: 1 <= k < m ==> !WantsExit(OperatorAfter(Answer(op, rounds[0].operator), rounds[1..], k))
    ensures forall k :: 1 <= k < m + 1 ==> !WantsExit(OperatorAfter(op, rounds, k))
  {
    forall k | 1 <= k < m + 1
      ensures !WantsExit(OperatorAfter(op, rounds, k))
    {
      OperatorAfterShift(op, rounds, k - 1);
    }
  }

  /** What main's start-up can end in. */
  datatype Start = Started(session: Session) | OpenError | InitError(closed: Reconnect.Handle)

  /** Start-up: open the port (None: it failed), read the banner, and set up
      the history and the operator buffer. */
  function Startup(port: Option<Reconnect.Handle>, banner: Option<seq<char>>, debug: bool,
                   times: seq<int>, stale: seq<int>, operator: seq<char>): (st: Start)
    requires |times| == MaxLanes && |stale| == HistorySlots
    ensures st.OpenError? <==> port.None?
    ensures st.InitError? <==> port.Some? && Banner.LaneCount(banner) == 0
    ensures st.InitError? ==> st.closed == port.value
    ensures st.Started? ==> && st.session.lanes in {2, 4, 8}
                            && st.session.lanes == Banner.LaneCount(banner)
                            && st.session.port == port.value
                            && st.session.history == History.Initial(stale)
                            && st.session.debug == debug && st.session.operator == operator
                            && st.session.times == times
    ensures st.Started? ==> (Valid(st.session) <==> st.session.lanes <= MaxLanes)
  {
    if port.None? then OpenError
    else
      var n := Banner.LaneCount(banner);
      if n == 0 then InitError(port.value)
      else Started(Session(n as nat, debug, port.value, times, History.Initial(stale), operator))
  }

  /** An 8-lane banner starts a session whose lane count exceeds the arrays
      `times` and `prev_times` (MAX_LANES = 4): every later pass would write
      past them. */
  lemma EightLaneTimerExceedsArrays(h: Reconnect.Handle, times: seq<int>, stale: seq<int>)
    requires |times| == MaxLanes && |stale| == HistorySlots
    ensures var st := Startup(Some(h), Some("8 Lanes found"), false, times, stale, "");
      st.Started? && st.session.lanes == 8 && !Valid(st.session)
  {
  }

  /** The banner quoted in the comment of `init_timer` reports four lanes. */
  lemma CommentBanner()
    ensures Banner.LaneCount(Some("SuperDuper Timer v9.3 - 4 Lanes found")) == 4
  {
    var s := "SuperDuper Timer v9.3 - 4 Lanes found";
    assert '\0' !in s && '8' !in s;
    CStringNoNul(s);
    assert s[24] == '4';
  }

  /** A bare Enter does not end the session. */
  lemma EnterContinues()
    ensures !WantsExit("\n")
  {
  }

  /** One pass on a four-lane session over a line on which lane 3 did not
      finish: a good race for lane 1 whose lane 4 time is dropped. */
  lemma UnfinishedLaneRound(s: Session, line: seq<RaceTimes.Pair>)
    requires Valid(s) && s.lanes == 4
    requires line == [RaceTimes.Pair(1, 32001), RaceTimes.Pair(2, 35512), RaceTimes.Pair(3, 0), RaceTimes.Pair(4, 40012)]
    ensures var r := Round(Some(line), [], Some("\n"));
      Admissible(4, r) &&
      var p := Step(s, r);
      && p.Done? && !p.exit && p.outcome == Good(1)
      && p.next.times == [32001, 35512, 0, 0] && p.next.port == s.port
  {
    RaceTimes.LaneThreeUnfinished(s.times);
    EnterContinues();
  }

  /** A failed read whose first reopen reports four lanes again. */
  lemma RecoveredRound(s: Session, h: Reconnect.Handle, banner: seq<char>)
    requires Valid(s) && s.lanes == 4
    requires Banner.LaneCount(Some(banner)) == 4
    ensures var r := Round(None, [Reconnect.Opened(h, Some(banner))], Some("\n"));
      var p := Step(s, r);
      && p.Done? && !p.exit && p.outcome == LinkFailure
      && p.next.port == h && p.next.history == s.history
  {
    EnterContinues();
    assert Reconnect.Retry([Reconnect.Opened(h, Some(banner))], 4) == Reconnect.Recovery(Some(h), 1, []);
  }

  /** A pass that ends without exit hands over to the rest of the run. */
  lemma RunContinues(s: Session, rounds: seq<Round>)
    requires Valid(s) && |rounds| > 0
    requires forall k :: 0 <= k < |rounds| ==> Admissible(s.lanes, rounds[k])
    requires Step(s, rounds[0]).Done? && !Step(s, rounds[0]).exit
    ensures var p := Step(s, rounds[0]);
      var rest := RunRounds(p.next, rounds[1..]);
      RunRounds(s, rounds) ==
        Run(rest.last, (if p.outcome.Good? then [p.next.times[..s.lanes]] else []) + rest.goods,
            rest.passes + 1, rest.stopped)
  {
    assert Admissible(s.lanes, rounds[0]);
    PassFacts(s, rounds[0]);
    assert RunRounds(s, rounds) == Resume(s, rounds, Step(s, rounds[0]));
  }

  /** The last stage of the run below: a failed read that recovers on the
      first reopen, as the only round left. */
  lemma RecoveryEndsRun(s: Session, h: Reconnect.Handle, banner: seq<char>)
    requires Valid(s) && s.lanes == 4
    requires Banner.LaneCount(Some(banner)) == 4
    ensures var r := Round(None, [Reconnect.Opened(h, Some(banner))], Some("\n"));
      var run := RunRounds(s, [r]);
      run.goods == [] && run.passes == 1 && !run.stopped && run.last.port == h
  {
    var r := Round(None, [Reconnect.Opened(h, Some(banner))], Some("\n"));
    RecoveredRound(s, h, banner);
    RunContinues(s, [r]);
    assert [r][1..] == [];
  }

  /** A good race on which lane 3 did not finish, followed by the rounds
      `rest`, adds its times ahead of theirs. */
  lemma UnfinishedLaneStartsRun(s: Session, line: seq<RaceTimes.Pair>, rest: seq<Round>)
    requires Valid(s) && s.lanes == 4
    requires line == [RaceTimes.Pair(1, 32001), RaceTimes.Pair(2, 35512), RaceTimes.Pair(3, 0), RaceTimes.Pair(4, 40012)]
    requires forall k :: 0 <= k < |rest| ==> Admissible(4, rest[k])
    ensures var r := Round(Some(line), [], Some("\n"));
      var next := Step(s, r).next;
      Step(s, r).Done? && Valid(next) && next.lanes == 4 &&
      var tail := RunRounds(next, rest);
      RunRounds(s, [r] + rest) == Run(tail.last, [[32001, 35512, 0, 0]] + tail.goods, tail.passes + 1, tail.stopped)
  {
    var r := Round(Some(line), [], Some("\n"));
    var rounds := [r] + rest;
    UnfinishedLaneRound(s, line);
    assert rounds[0] == r && rounds[1..] == rest;
    assert forall k :: 0 <= k < |rounds| ==> Admissible(4, rounds[k]);
    RunContinues(s, rounds);
    var v := [32001, 35512, 0, 0];
    assert v[..4] == v;
  }

  /** A good race on which lane 3 did not finish, then a failed read that
      recovers on the first reopen. */
  lemma RaceThenRecovery(s: Session, line: seq<RaceTimes.Pair>, h: Reconnect.Handle, banner: seq<char>)
    requires Valid(s) && s.lanes == 4
    requires line == [RaceTimes.Pair(1, 32001), RaceTimes.Pair(2, 35512), RaceTimes.Pair(3, 0), RaceTimes.Pair(4, 40012)]
    requires Banner.LaneCount(Some(banner)) == 4
    ensures var rounds := [Round(Some(line), [], Some("\n")), Round(None, [Reconnect.Opened(h, Some(banner))], Some("\n"))];
      && (forall k :: 0 <= k < |rounds| ==> Admissible(4, rounds[k]))
      && var run := RunRounds(s, rounds);
      run.goods == [[32001, 35512, 0, 0]] && run.passes == 2 && !run.stopped && run.last.port == h
  {
    var good := Round(Some(line), [], Some("\n"));
    var fail := Round(None, [Reconnect.Opened(h, Some(banner))], Some("\n"));
    UnfinishedLaneRound(s, line);
    UnfinishedLaneStartsRun(s, line, [fail]);
    RecoveryEndsRun(Step(s, good).next, h, banner);
    assert [good] + [fail] == [good, fail];
  }

  /** From start-up: a port whose banner reports four lanes starts a session
      that fits the arrays; a race on which lane 3 did not finish is saved
      with lane 4's time dropped, a failed read then recovers on the first
      reopen, and the history is that race pushed onto the initial one. */
  lemma StartRaceRecover(p1: Reconnect.Handle, p2: Reconnect.Handle, banner: seq<char>, times: seq<int>, stale: seq<int>,
                         line: seq<RaceTimes.Pair>)
    requires Banner.LaneCount(Some(banner)) == 4
    requires |times| == MaxLanes && |stale| == HistorySlots
    requires line == [RaceTimes.Pair(1, 32001), RaceTimes.Pair(2, 35512), RaceTimes.Pair(3, 0), RaceTimes.Pair(4, 40012)]
    ensures var st := Startup(Some(p1), Some(banner), false, times, stale, "\n");
      var rounds := [Round(Some(line), [], Some("\n")), Round(None, [Reconnect.Opened(p2, Some(banner))], Some("\n"))];
      && st.Started? && st.session.lanes == 4 && Valid(st.session)
      && (forall k :: 0 <= k < |rounds| ==> Admissible(4, rounds[k]))
      && var run := RunRounds(st.session, rounds);
      && run.goods == [[32001, 35512, 0, 0]]
      && run.passes == 2 && !run.stopped
      && run.last.port == p2
      && run.last.history == History.Push(History.Initial(stale), 4, [32001, 35512, 0, 0])
  {
    var s0 := Startup(Some(p1), Some(banner), false, times, stale, "\n").session;
    RaceThenRecovery(s0, line, p2, banner);
    var v: seq<int> := [32001, 35512, 0, 0];
    assert [v][..0] == [];
  }
}
