/** The timer's identification banner (`init_timer`): the line the timer prints
    after a reset is reduced to a lane count by a fixed priority among the
    digits '8', '4' and '2'. */
module Banner {
  import opened Common

  /** The digits that name a supported lane count. */
  predicate IsLaneDigit(c: char) {
    c == '8' || c == '4' || c == '2'
  }

  /** Lane count `init_timer` reports for the line fgets delivered (None: the
      read failed); 0 is its error value. An '8' anywhere wins over any '4',
      which wins over any '2'. */
  function LaneCount(read: Option<seq<char>>): (n: int)
    ensures n in {0, 2, 4, 8}
    ensures n != 0 ==> read.Some?
  {
    match read
    case None => 0
    case Some(line) =>
      var s := CString(line);
      if '8' in s then 8 else if '4' in s then 4 else if '2' in s then 2 else 0
  }

  /** `strrchr`: the position of the last `c` before the first NUL, if any. */
  method StrRChr(buf: seq<char>, c: char) returns (r: Option<nat>)
    requires c != '\0'
    ensures r.Some? <==> c in CString(buf)
    ensures r.Some? ==> r.value < |CString(buf)| && buf[r.value] == c
    ensures r.Some? ==> forall j :: r.value < j < |CString(buf)| ==> buf[j] != c
  {
    r := None;
    var i := 0;
    while i < |buf| && buf[i] != '\0'
      invariant 0 <= i <= |buf|
      invariant '\0' !in buf[..i]
      invariant r.None? <==> c !in buf[..i]
      invariant r.Some? ==> r.value < i && buf[r.value] == c
      invariant r.Some? ==> forall j :: r.value < j < i ==> buf[j] != c
    {
      if buf[i] == c {
        r := Some(i);
      }
      assert buf[..i + 1] == buf[..i] + [buf[i]];
      i := i + 1;
    }
    CStringUnique(buf, i);
  }

  /** `init_timer` as written: three `strrchr` probes in priority order. */
  method InitTimer(read: Option<seq<char>>) returns (n: int)
    ensures n == LaneCount(read)
    ensures n == 8 <==> read.Some? && '8' in CString(read.value)
    ensures n == 4 <==> read.Some? && '8' !in CString(read.value) && '4' in CString(read.value)
    ensures n == 2 <==> read.Some? && '8' !in CString(read.value) && '4' !in CString(read.value)
                                   && '2' in CString(read.value)
    ensures n == 0 <==> read.None? || forall c :: IsLaneDigit(c) ==> c !in CString(read.value)
  {
    if read.None? {
      return 0;
    }
    var line := read.value;
    var p8 := StrRChr(line, '8');
    if p8.Some? {
      return 8;
    }
    var p4 := StrRChr(line, '4');
    if p4.Some? {
      return 4;
    }
    var p2 := StrRChr(line, '2');
    if p2.Some? {
      return 2;
    }
    return 0;
  }

  /** The comment in `init_timer` describes a backward search for a digit;
      this is that search restricted to the lane digits: the lane digit
      closest to the end of the line. */
  function RightmostLaneDigit(s: seq<char>): (n: int)
    ensures n in {0, 2, 4, 8}
    ensures n == 0 <==> forall i :: 0 <= i < |s| ==> !IsLaneDigit(s[i])
    ensures n != 0 ==> exists i :: && 0 <= i < |s| && IsLaneDigit(s[i])
                                   && n == (if s[i] == '8' then 8 else if s[i] == '4' then 4 else 2)
                                   && forall j :: i < j < |s| ==> !IsLaneDigit(s[j])
  {
    if |s| == 0 then 0
    else
      var c := s[|s| - 1];
      if c == '8' then 8 else if c == '4' then 4 else if c == '2' then 2
      else RightmostLaneDigit(s[..|s| - 1])
  }

  /** An '8' before the first NUL makes the count 8, wherever any '4' or '2'
      stands in the line. */
  lemma {:induction false} EightWinsAnywhere(before: seq<char>, after: seq<char>)
    requires '\0' !in before
    ensures LaneCount(Some(before + ['8'] + after)) == 8
  {
    var line := before + ['8'] + after;
    var s := CString(line);
    if |s| <= |before| {
      assert false;
    }
    assert s[|before|] == line[|before|] == '8';
  }

  /** Without an '8', a '4' before the first NUL makes the count 4. */
  lemma {:induction false} OnlyFourPresent(before: seq<char>, after: seq<char>)
    requires '\0' !in before && '8' !in before
    requires '8' !in after
    ensures LaneCount(Some(before + ['4'] + after)) == 4
  {
    var line := before + ['4'] + after;
    var s := CString(line);
    if |s| <= |before| {
      assert false;
    }
    assert s[|before|] == line[|before|] == '4';
    assert '8' !in line;
  }

  /** The priority rule and the rightmost-digit reading agree whenever the line
      holds only one kind of lane digit. */
  lemma {:induction false} SingleDigitAgrees(s: seq<char>, d: char)
    requires '\0' !in s
    requires IsLaneDigit(d)
    requires forall i :: 0 <= i < |s| ==> s[i] == d || !IsLaneDigit(s[i])
    ensures LaneCount(Some(s)) == RightmostLaneDigit(s)
  {
    CStringNoNul(s);
    if |s| > 0 && s[|s| - 1] != d {
      var t := s[..|s| - 1];
      assert forall c :: c in s && c != s[|s| - 1] ==> c in t;
      SingleDigitAgrees(t, d);
      CStringNoNul(t);
    }
  }

  /** The two readings differ: whenever an '8' (in a version string, say)
      stands ahead of the real lane count 4, the line is classified as an
      8-lane timer, while the rightmost lane digit is the 4. */
  lemma {:induction false} PriorityIsNotRightmost(before: seq<char>, mid: seq<char>, after: seq<char>)
    requires '\0' !in before
    requires forall i :: 0 <= i < |after| ==> !IsLaneDigit(after[i])
    ensures LaneCount(Some(before + ['8'] + mid + ['4'] + after)) == 8
    ensures RightmostLaneDigit(before + ['8'] + mid + ['4'] + after) == 4
  {
    var s := before + ['8'] + mid + ['4'] + after;
    var head := before + ['8'] + mid + ['4'];
    EightWinsAnywhere(before, mid + ['4'] + after);
    assert before + ['8'] + (mid + ['4'] + after) == s;
    TrailingNonDigits(head, after);
    assert head + after == s;
    assert head[|head| - 1] == '4';
  }

  /** Characters that are not lane digits at the end of a line do not change
      the rightmost-digit reading. */
  lemma {:induction false} TrailingNonDigits(s: seq<char>, t: seq<char>)
    requires forall i :: 0 <= i < |t| ==> !IsLaneDigit(t[i])
    ensures RightmostLaneDigit(s + t) == RightmostLaneDigit(s)
  {
    if |t| > 0 {
      var u := t[..|t| - 1];
      assert (s + t)[..|s + t| - 1] == s + u;
      TrailingNonDigits(s, u);
    } else {
      assert s + t == s;
    }
  }
}
