/** Recovery after a failed read (`reinit_timer`): close the port, then, each
    time the operator presses Enter, reopen it and re-read the banner until
    the timer reports the lane count the session started with. */
module Reconnect {
  import opened Common
  import Banner

  /** An open serial port (the `FILE *` of `open_timer`), as an opaque token. */
  type Handle = nat

  /** What one round after the operator's Enter found: the port could not be
      opened, or it opened and `init_timer` read this banner from it. */
  datatype Attempt = OpenFailed | Opened(handle: Handle, banner: Option<seq<char>>)

  /** The round that ends recovery: the port opened and its banner reports the
      expected lane count. */
  function Accepts(a: Attempt, expected: int): (ok: bool)
    ensures ok ==> a.Opened? && expected in {0, 2, 4, 8}
    ensures ok && expected != 0 ==> a.banner.Some?
  {
    a.Opened? && Banner.LaneCount(a.banner) == expected
  }

  /** The handles of the rounds that opened the port, in order. */
  function OpenedHandles(rounds: seq<Attempt>): (hs: seq<Handle>)
    ensures |hs| <= |rounds|
  {
    if |rounds| == 0 then []
    else (if rounds[0].Opened? then [rounds[0].handle] else []) + OpenedHandles(rounds[1..])
  }

  /** How recovery ended, given only finitely many operator rounds: the handle
      it returns (None when the rounds ran out first, where the program would
      keep waiting), the rounds it used, and the handles it closed, in order. */
  datatype Recovery = Recovery(handle: Option<Handle>, rounds: nat, closed: seq<Handle>)

  /** The retry loop after its initial close: each round is one pass from the
      `retry:` label. */
  function Retry(attempts: seq<Attempt>, expected: int): (r: Recovery)
    ensures r.rounds <= |attempts|
    ensures r.handle.None? ==> r.rounds == |attempts|
    ensures r.handle.Some? <==> exists j :: 0 <= j < |attempts| && Accepts(attempts[j], expected)
    ensures r.handle.Some? ==> 1 <= r.rounds && Accepts(attempts[r.rounds - 1], expected)
                               && attempts[r.rounds - 1].handle == r.handle.value
    ensures r.handle.None? ==> r.rounds == |attempts|
    ensures forall j :: 0 <= j < |attempts| && j < r.rounds - 1 ==> !Accepts(attempts[j], expected)
    ensures r.handle.None? ==> forall j :: 0 <= j < |attempts| ==> !Accepts(attempts[j], expected)
    ensures r.closed == OpenedHandles(attempts[..if r.handle.Some? then r.rounds - 1 else r.rounds])
  {
    if |attempts| == 0 then Recovery(None, 0, [])
    else
      var rest := Retry(attempts[1..], expected);
      var first := attempts[0];
      if Accepts(first, expected) then
        assert attempts[..0] == [];
        Recovery(Some(first.handle), 1, [])
      else
        var n := if rest.handle.Some? then rest.rounds - 1 else rest.rounds;
        assert attempts[..n + 1][1..] == attempts[1..][..n];
        Recovery(rest.handle, rest.rounds + 1,
                 (if first.Opened? then [first.handle] else []) + rest.closed)
  }

  /** `reinit_timer`: closes the failed port, then retries. */
  function ReinitTimer(port: Handle, attempts: seq<Attempt>, expected: int): (r: Recovery)
    ensures |r.closed| >= 1 && r.closed[0] == port
    ensures r.rounds <= |attempts|
    ensures r.handle.None? ==> r.rounds == |attempts|
    ensures r.handle.Some? <==> exists j :: 0 <= j < |attempts| && Accepts(attempts[j], expected)
    ensures r.handle.Some? ==> 1 <= r.rounds <= |attempts|
                               && exists b :: attempts[r.rounds - 1] == Opened(r.handle.value, b)
                                              && Banner.LaneCount(b) == expected
    ensures forall j :: 0 <= j < |attempts| && j < r.rounds - 1 ==> !Accepts(attempts[j], expected)
    ensures r.closed == [port] + OpenedHandles(attempts[..if r.handle.Some? then r.rounds - 1 else r.rounds])
  {
    var rest := Retry(attempts, expected);
    Recovery(rest.handle, rest.rounds, [port] + rest.closed)
  }

  /** An open failure closes nothing; a mismatched banner closes the handle it
      came from before the next round. */
  lemma MismatchClosesOpenFailureDoesNot(port: Handle, attempts: seq<Attempt>, expected: int)
    requires |attempts| >= 1 && !Accepts(attempts[0], expected)
    ensures attempts[0] == OpenFailed ==>
      ReinitTimer(port, attempts, expected).closed == [port] + Retry(attempts[1..], expected).closed
    ensures attempts[0].Opened? ==>
      ReinitTimer(port, attempts, expected).closed == [port, attempts[0].handle] + Retry(attempts[1..], expected).closed
  {
  }

  /** Two failed opens, then a port whose banner reports the expected lane
      count: recovery ends after exactly three rounds with that handle,
      having closed only the original port. */
  lemma ThirdRoundSucceeds(port: Handle, h: Handle, banner: seq<char>, expected: int)
    requires Banner.LaneCount(Some(banner)) == expected
    ensures ReinitTimer(port, [OpenFailed, OpenFailed, Opened(h, Some(banner))], expected)
            == Recovery(Some(h), 3, [port])
  {
    var good := Opened(h, Some(banner));
    var attempts := [OpenFailed, OpenFailed, good];
    assert attempts[1..] == [OpenFailed, good] && attempts[1..][1..] == [good];
    assert Retry([good], expected) == Recovery(Some(h), 1, []);
    assert Retry([OpenFailed, good], expected) == Recovery(Some(h), 2, []);
    assert Retry(attempts, expected) == Recovery(Some(h), 3, []);
  }
}
