/** The race-result line (`get_times`): a line of `<lane> <time>` pairs in the
    order the timer saw the cars finish, decoded into one time per lane and the
    return code main dispatches on. */
module RaceTimes {
  import opened Common

  /** One pair as `strtol` and `strtof` decode it. A time is an integer count
      of ten-thousandths of a second; it is 0 exactly when the float compares
      equal to 0.0, the timer's mark for a lane that did not finish. */
  datatype Pair = Pair(lane: int, time: int)

  /** The i-th pair of the line. Past the last token `strtol` and `strtof` find
      no number and yield 0, so a short line reads as lane 0 with time 0. */
  function PairAt(pairs: seq<Pair>, i: nat): (p: Pair)
    ensures i >= |pairs| ==> p == Pair(0, 0)
    ensures i < |pairs| ==> p == pairs[i]
  {
    if i < |pairs| then pairs[i] else Pair(0, 0)
  }

  function ConsumedFrom(pairs: seq<Pair>, lanes: nat, i: nat): (k: nat)
    requires i <= lanes
    ensures i <= k <= lanes
    ensures forall j :: i <= j < k ==> PairAt(pairs, j).time != 0
    ensures k < lanes ==> PairAt(pairs, k).time == 0
    decreases lanes - i
  {
    if i == lanes || PairAt(pairs, i).time == 0 then i else ConsumedFrom(pairs, lanes, i + 1)
  }

  /** How many pairs `get_times` stores: it reads at most `lanes` pairs and
      stops at the first zero time. */
  function Consumed(pairs: seq<Pair>, lanes: nat): (k: nat)
    ensures k <= lanes && k <= |pairs|
    ensures forall j :: 0 <= j < k ==> pairs[j].time != 0
    ensures k < lanes ==> PairAt(pairs, k).time == 0
  {
    var k := ConsumedFrom(pairs, lanes, 0);
    assert |pairs| < k ==> PairAt(pairs, |pairs|).time == 0;
    assert forall j :: 0 <= j < k ==> PairAt(pairs, j) == pairs[j];
    k
  }

  /** The time `results[lane - 1]` holds after the pairs `stored` were written
      in order: a later pair naming the lane overwrites an earlier one, and a
      lane no pair names keeps the 0 it was cleared to. */
  function LastTime(stored: seq<Pair>, lane: int): (t: int)
    ensures (forall i :: 0 <= i < |stored| ==> stored[i].lane != lane) ==> t == 0
    ensures t != 0 ==> exists i :: 0 <= i < |stored| && stored[i].lane == lane && stored[i].time == t
    ensures (exists i :: 0 <= i < |stored| && stored[i].lane == lane) ==>
      exists i :: 0 <= i < |stored| && stored[i].lane == lane && t == stored[i].time
                  && forall j :: i < j < |stored| ==> stored[j].lane != lane
  {
    if |stored| == 0 then 0
    else if stored[|stored| - 1].lane == lane then stored[|stored| - 1].time
    else LastTime(stored[..|stored| - 1], lane)
  }

  /** The C code indexes `results[lane - 1]` with no range check: every pair
      it stores must name a lane of the timer. */
  predicate LanesInRange(pairs: seq<Pair>, lanes: nat) {
    forall i :: 0 <= i < Consumed(pairs, lanes) ==> 1 <= pairs[i].lane <= lanes
  }

  /** What `get_times` leaves behind: its return value and the results array. */
  datatype Reading = Reading(code: int, times: seq<int>)

  /** Reference meaning of `get_times` for the line fgets delivered (None: the
      read failed) and the results array `prev` it is handed. */
  function Decode(read: Option<seq<Pair>>, lanes: nat, prev: seq<int>): (r: Reading)
    requires 1 <= lanes <= MaxLanes && |prev| == MaxLanes
    requires read.Some? ==> LanesInRange(read.value, lanes)
    ensures |r.times| == MaxLanes
    ensures read.None? ==> r.code == -1 && r.times == prev
    ensures read.Some? ==> r.code == PairAt(read.value, 0).lane
    ensures forall l :: lanes <= l < MaxLanes ==> r.times[l] == prev[l]
  {
    match read
    case None => Reading(-1, prev)
    case Some(pairs) =>
      var stored := pairs[..Consumed(pairs, lanes)];
      Reading(PairAt(pairs, 0).lane,
              seq(MaxLanes, l requires 0 <= l < MaxLanes =>
                if l < lanes then LastTime(stored, l + 1) else prev[l]))
  }

  /** `get_times` as written: on a successful read, clear the first `lanes`
      results, then walk the pairs, taking the first lane as the return value
      before its time is looked at, and stop at the first zero time. */
  method GetTimes(read: Option<seq<Pair>>, lanes: nat, results: seq<int>) returns (code: int, out: seq<int>)
    requires 1 <= lanes <= MaxLanes && |results| == MaxLanes
    requires read.Some? ==> LanesInRange(read.value, lanes)
    ensures Reading(code, out) == Decode(read, lanes, results)
  {
    if read.None? {
      return -1, results;
    }
    var pairs := read.value;
    out := results;
    var j := 0;
    while j < lanes
      invariant 0 <= j <= lanes
      invariant |out| == MaxLanes
      invariant forall l :: 0 <= l < j ==> out[l] == 0
      invariant forall l :: j <= l < MaxLanes ==> out[l] == results[l]
    {
      out := out[j := 0];
      j := j + 1;
    }
    code := 0;
    var k := Consumed(pairs, lanes);
    var i := 0;
    while i < lanes
      invariant 0 <= i <= k
      invariant |out| == MaxLanes
      invariant forall l :: lanes <= l < MaxLanes ==> out[l] == results[l]
      invariant forall l :: 0 <= l < lanes ==> out[l] == LastTime(pairs[..i], l + 1)
      invariant i > 0 ==> code == PairAt(pairs, 0).lane
    {
      var p := PairAt(pairs, i);
      if i == 0 {
        code := p.lane;
      }
      if p.time == 0 {
        break;
      }
      assert pairs[..i + 1][..i] == pairs[..i];
      out := out[p.lane - 1 := p.time];
      i := i + 1;
    }
    assert i == k;
  }

  /** Only the line decides the return value and the first `lanes` results;
      the array handed in shows through only in the slots past `lanes`. */
  lemma DecodeIgnoresOldLanes(read: Option<seq<Pair>>, lanes: nat, prev: seq<int>, prev': seq<int>)
    requires 1 <= lanes <= MaxLanes && |prev| == MaxLanes && |prev'| == MaxLanes
    requires read.Some? ==> LanesInRange(read.value, lanes)
    ensures read.Some? ==> Decode(read, lanes, prev).code == Decode(read, lanes, prev').code
    ensures read.Some? ==> Decode(read, lanes, prev).times[..lanes] == Decode(read, lanes, prev').times[..lanes]
  {
  }

  /** A line whose first time is zero is a null race: every lane reads 0, and
      the return value is still the first lane token, not 0. */
  lemma FirstTimeZero(pairs: seq<Pair>, lanes: nat, prev: seq<int>)
    requires 1 <= lanes <= MaxLanes && |prev| == MaxLanes
    requires PairAt(pairs, 0).time == 0
    ensures LanesInRange(pairs, lanes)
    ensures var r := Decode(Some(pairs), lanes, prev);
      r.code == PairAt(pairs, 0).lane &&
      forall l :: 0 <= l < lanes ==> r.times[l] == 0
  {
    assert Consumed(pairs, lanes) == 0;
    var r := Decode(Some(pairs), lanes, prev);
    forall l | 0 <= l < lanes
      ensures r.times[l] == 0
    {
      assert r.times[l] == LastTime(pairs[..0], l + 1);
    }
  }

  /** Every lane no stored pair names reads 0 after a successful read, in
      particular the lanes named only after the first zero time. */
  lemma UnnamedLanesZero(pairs: seq<Pair>, lanes: nat, prev: seq<int>, l: nat)
    requires 1 <= lanes <= MaxLanes && |prev| == MaxLanes
    requires LanesInRange(pairs, lanes)
    requires l < lanes
    requires forall i :: 0 <= i < Consumed(pairs, lanes) ==> pairs[i].lane != l + 1
    ensures Decode(Some(pairs), lanes, prev).times[l] == 0
  {
    var stored := pairs[..Consumed(pairs, lanes)];
    assert forall i :: 0 <= i < |stored| ==> stored[i] == pairs[i];
    assert Decode(Some(pairs), lanes, prev).times[l] == LastTime(stored, l + 1);
  }

  /** With distinct lane numbers, the last pair naming a lane is the only one. */
  lemma {:induction false} LastTimeOfDistinct(stored: seq<Pair>, i: nat)
    requires i < |stored|
    requires forall a, b :: 0 <= a < b < |stored| ==> stored[a].lane != stored[b].lane
    ensures LastTime(stored, stored[i].lane) == stored[i].time
  {
    if i < |stored| - 1 {
      LastTimeOfDistinct(stored[..|stored| - 1], i);
    }
  }

  /** Results are stored by lane number, not by position: each stored pair's
      time lands in `results[lane - 1]` when the line names each lane once. */
  lemma StoredByLane(pairs: seq<Pair>, lanes: nat, prev: seq<int>, i: nat)
    requires 1 <= lanes <= MaxLanes && |prev| == MaxLanes
    requires LanesInRange(pairs, lanes)
    requires i < Consumed(pairs, lanes)
    requires forall a, b :: 0 <= a < b < Consumed(pairs, lanes) ==> pairs[a].lane != pairs[b].lane
    ensures Decode(Some(pairs), lanes, prev).times[pairs[i].lane - 1] == pairs[i].time
  {
    var stored := pairs[..Consumed(pairs, lanes)];
    LastTimeOfDistinct(stored, i);
  }

  /** A four-lane line on which lane 3 did not finish,
      `1 3.2001 2 3.5512 3 0.0000 4 4.0012`: decoding stops at lane 3's zero,
      so lane 4's time is dropped. */
  lemma LaneThreeUnfinished(prev: seq<int>)
    requires |prev| == MaxLanes
    ensures var pairs := [Pair(1, 32001), Pair(2, 35512), Pair(3, 0), Pair(4, 40012)];
      LanesInRange(pairs, 4) &&
      Decode(Some(pairs), 4, prev) == Reading(1, [32001, 35512, 0, 0])
  {
    var pairs := [Pair(1, 32001), Pair(2, 35512), Pair(3, 0), Pair(4, 40012)];
    assert Consumed(pairs, 4) == 2;
    var stored := pairs[..2];
    assert stored[..1] == [Pair(1, 32001)];
    assert LastTime(stored, 1) == 32001;
    assert LastTime(stored, 2) == 35512;
    assert LastTime(stored, 3) == 0;
    assert LastTime(stored, 4) == 0;
    var r := Decode(Some(pairs), 4, prev);
    assert r.times == [32001, 35512, 0, 0];
  }
}
