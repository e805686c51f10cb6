/** Definitions shared by every part of the lane judge: the fixed sizes of its
    arrays and the view a C string function has of a character buffer. */
module Common {

  /** A value that may be missing: None stands for a read that failed. */
  datatype Option<+T> = None | Some(value: T)

  /** Length of the per-lane arrays `times` and `prev_times` (MAX_LANES). */
  const MaxLanes: nat := 4

  /** Number of slots of the rolling history (second dimension of `prev_times`). */
  const HistorySlots: nat := 4

  /** The characters `strchr`, `strrchr` and `printf("%s")` see in a buffer:
      everything before the first NUL. */
  function CString(buf: seq<char>): (s: seq<char>)
    ensures s <= buf
    ensures '\0' !in s
    ensures |s| < |buf| ==> buf[|s|] == '\0'
  {
    if |buf| == 0 || buf[0] == '\0' then [] else [buf[0]] + CString(buf[1..])
  }

  /** The C string of a buffer is the only prefix free of NUL that ends at a NUL
      or at the end of the buffer. */
  lemma CStringUnique(buf: seq<char>, n: nat)
    requires n <= |buf|
    requires '\0' !in buf[..n]
    requires n < |buf| ==> buf[n] == '\0'
    ensures CString(buf) == buf[..n]
  {
  }

  /** A C string function finds `c` exactly when some `c` in the buffer has no
      NUL ahead of it. */
  lemma CStringFinds(buf: seq<char>, c: char)
    requires c != '\0'
    ensures c in CString(buf) <==> exists i :: 0 <= i < |buf| && buf[i] == c && '\0' !in buf[..i]
  {
    var s := CString(buf);
    if c in s {
      var i :| 0 <= i < |s| && s[i] == c;
      assert buf[i] == c && '\0' !in buf[..i] by {
        assert buf[..i] == s[..i];
        assert forall x :: x in s[..i] ==> x in s;
      }
    }
    forall i | 0 <= i < |buf| && buf[i] == c && '\0' !in buf[..i]
      ensures c in s
    {
      FoundBeforeNul(buf, i);
      assert s[i] == c;
    }
  }

  /** A character with no NUL ahead of it lies inside the C string. */
  lemma FoundBeforeNul(buf: seq<char>, i: nat)
    requires i < |buf| && buf[i] != '\0' && '\0' !in buf[..i]
    ensures i < |CString(buf)|
  {
    var n := |CString(buf)|;
    if n < |buf| {
      assert buf[n] == '\0';
      assert n != i;
    }
  }

  /** A buffer without NUL is its own C string. */
  lemma CStringNoNul(buf: seq<char>)
    requires '\0' !in buf
    ensures CString(buf) == buf
  {
  }
}
