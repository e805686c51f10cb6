/** The rolling history of main (`prev_times` and `prev_head`): a ring of four
    slots, each holding one good race's time per lane, with a write cursor. */
module History {
  import opened Common

  /** `cells[lane][slot]` is `prev_times[lane][slot]`; `head` is `prev_head`,
      the slot the next good race overwrites. */
  datatype History = History(cells: seq<seq<int>>, head: int)

  predicate Valid(h: History) {
    && |h.cells| == MaxLanes
    && (forall j :: 0 <= j < MaxLanes ==> |h.cells[j]| == HistorySlots)
    && 0 <= h.head < HistorySlots
  }

  /** The history main starts with. Its `memset` clears 3 * MAX_LANES floats,
      the rows of the first three lanes; the last lane's row keeps whatever
      the stack held (`stale`). */
  function Initial(stale: seq<int>): (h: History)
    requires |stale| == HistorySlots
    ensures Valid(h) && h.head == 0
    ensures forall j, i :: 0 <= j < MaxLanes - 1 && 0 <= i < HistorySlots ==> h.cells[j][i] == 0
    ensures h.cells[MaxLanes - 1] == stale
  {
    History(seq(MaxLanes, j requires 0 <= j < MaxLanes =>
              if j < MaxLanes - 1 then seq(HistorySlots, _ => 0) else stale), 0)
  }

  /** Saving a good race: write its times into the cursor's slot for the
      timer's lanes, then advance the cursor, wrapping 4 to 0. */
  function Push(h: History, lanes: nat, times: seq<int>): (h': History)
    requires Valid(h) && 1 <= lanes <= MaxLanes && |times| >= lanes
    ensures Valid(h')
    ensures h'.head == (h.head + 1) % HistorySlots
    ensures forall j :: 0 <= j < lanes ==> h'.cells[j][h.head] == times[j]
    ensures forall j, i :: 0 <= j < MaxLanes && 0 <= i < HistorySlots && (lanes <= j || i != h.head)
                           ==> h'.cells[j][i] == h.cells[j][i]
  {
    var cells := seq(MaxLanes, j requires 0 <= j < MaxLanes =>
                   if j < lanes then h.cells[j][h.head := times[j]] else h.cells[j]);
    var next := h.head + 1;
    History(cells, if next == HistorySlots then 0 else next)
  }

  /** One backward step of the display walk: decrement, wrapping -1 to 3. */
  function PrevSlot(i: int): (p: int)
    requires 0 <= i < HistorySlots
    ensures 0 <= p < HistorySlots
    ensures p == (i + HistorySlots - 1) % HistorySlots
  {
    if i - 1 < 0 then HistorySlots - 1 else i - 1
  }

  /** The display loop from slot `i` until it reaches `head`. */
  function Walk(head: int, i: int): (order: seq<int>)
    requires 0 <= head < HistorySlots && 0 <= i < HistorySlots
    ensures |order| == (i - head + HistorySlots) % HistorySlots
    ensures forall k :: 0 <= k < |order| ==> order[k] == (i - k + HistorySlots) % HistorySlots
    decreases (i - head + HistorySlots) % HistorySlots
  {
    if i == head then [] else [i] + Walk(head, PrevSlot(i))
  }

  /** The slots printed under "Previous results" right after writing slot
      `head`: the walk starts one before it and stops on reaching it. */
  function RecentOrder(head: int): (order: seq<int>)
    requires 0 <= head < HistorySlots
    ensures order == [(head + 3) % HistorySlots, (head + 2) % HistorySlots, (head + 1) % HistorySlots]
    ensures head !in order
  {
    Walk(head, PrevSlot(head))
  }

  /** The times of one slot for the timer's lanes. */
  function Entry(h: History, slot: int, lanes: nat): (e: seq<int>)
    requires Valid(h) && 0 <= slot < HistorySlots && lanes <= MaxLanes
    ensures |e| == lanes
    ensures forall j :: 0 <= j < lanes ==> e[j] == h.cells[j][slot]
  {
    seq(lanes, j requires 0 <= j < lanes => h.cells[j][slot])
  }

  /** The slot a push writes holds the race's times for the timer's lanes. */
  lemma WrittenEntry(h: History, lanes: nat, times: seq<int>)
    requires Valid(h) && 1 <= lanes <= MaxLanes && |times| >= lanes
    ensures Entry(Push(h, lanes, times), h.head, lanes) == times[..lanes]
  {
  }

  /** A push reads only the times of the timer's lanes. */
  lemma PushReadsOwnLanes(h: History, lanes: nat, times: seq<int>, times': seq<int>)
    requires Valid(h) && 1 <= lanes <= MaxLanes && |times| >= lanes && |times'| >= lanes
    requires times[..lanes] == times'[..lanes]
    ensures Push(h, lanes, times) == Push(h, lanes, times')
  {
    assert forall j :: 0 <= j < lanes ==> times[j] == times[..lanes][j] == times'[j];
  }

  /** The rows printed after writing slot `written`, oldest last. */
  function Previous(h: History, written: int, lanes: nat): (rows: seq<seq<int>>)
    requires Valid(h) && 0 <= written < HistorySlots && lanes <= MaxLanes
    ensures |rows| == HistorySlots - 1
    ensures forall k :: 0 <= k < |rows| ==> rows[k] == Entry(h, (written + 3 - k) % HistorySlots, lanes)
  {
    var order := RecentOrder(written);
    seq(|order|, k requires 0 <= k < |order| => Entry(h, order[k], lanes))
  }

  /** The good races `es` saved one after another, oldest first. */
  function PushAll(h: History, lanes: nat, es: seq<seq<int>>): (h': History)
    requires Valid(h) && 1 <= lanes <= MaxLanes
    requires forall k :: 0 <= k < |es| ==> |es[k]| >= lanes
    ensures Valid(h')
  {
    if |es| == 0 then h
    else Push(PushAll(h, lanes, es[..|es| - 1]), lanes, es[|es| - 1])
  }

  /** Saving one race and then `es` is saving `[e] + es`. */
  lemma {:induction false} PushAllCons(h: History, lanes: nat, e: seq<int>, es: seq<seq<int>>)
    requires Valid(h) && 1 <= lanes <= MaxLanes && |e| >= lanes
    requires forall m :: 0 <= m < |es| ==> |es[m]| >= lanes
    ensures PushAll(Push(h, lanes, e), lanes, es) == PushAll(h, lanes, [e] + es)
  {
    if |es| > 0 {
      PushAllCons(h, lanes, e, es[..|es| - 1]);
      assert ([e] + es)[..|es|] == [e] + es[..|es| - 1];
    } else {
      assert ([e] + es)[..0] == [];
    }
  }

  /** After any number of good races the cursor has advanced by that many
      slots, and the k-th newest race (k < 4) sits k + 1 slots behind it. */
  lemma {:induction false} NewestEntries(h: History, lanes: nat, es: seq<seq<int>>, k: nat)
    requires Valid(h) && 1 <= lanes <= MaxLanes
    requires forall m :: 0 <= m < |es| ==> |es[m]| >= lanes
    requires k < |es| && k < HistorySlots
    ensures PushAll(h, lanes, es).head == (h.head + |es|) % HistorySlots
    ensures var h' := PushAll(h, lanes, es);
      Entry(h', (h'.head + 3 - k) % HistorySlots, lanes) == es[|es| - 1 - k][..lanes]
  {
    var init := es[..|es| - 1];
    var before := PushAll(h, lanes, init);
    var h' := PushAll(h, lanes, es);
    CursorAdvances(h, lanes, init);
    var slot := (h'.head + 3 - k) % HistorySlots;
    if k == 0 {
      assert slot == before.head;
    } else {
      NewestEntries(h, lanes, init, k - 1);
      assert init[|init| - 1 - (k - 1)] == es[|es| - 1 - k];
      assert slot == (before.head + 3 - (k - 1)) % HistorySlots;
      assert slot != before.head;
    }
  }

  /** Each saved race advances the cursor by one slot. */
  lemma {:induction false} CursorAdvances(h: History, lanes: nat, es: seq<seq<int>>)
    requires Valid(h) && 1 <= lanes <= MaxLanes
    requires forall m :: 0 <= m < |es| ==> |es[m]| >= lanes
    ensures PushAll(h, lanes, es).head == (h.head + |es|) % HistorySlots
  {
    if |es| > 0 {
      CursorAdvances(h, lanes, es[..|es| - 1]);
    }
  }

  /** The k-th row printed after the newest race (k = 1, 2, 3) is the k-th
      race before it. */
  lemma PreviousRow(h: History, lanes: nat, es: seq<seq<int>>, k: nat)
    requires Valid(h) && 1 <= lanes <= MaxLanes
    requires forall m :: 0 <= m < |es| ==> |es[m]| >= lanes
    requires 1 <= k < HistorySlots && k < |es|
    ensures var h' := PushAll(h, lanes, es);
      Previous(h', (h'.head + 3) % HistorySlots, lanes)[k - 1] == es[|es| - 1 - k][..lanes]
  {
    var h' := PushAll(h, lanes, es);
    var written := (h'.head + 3) % HistorySlots;
    NewestEntries(h, lanes, es, k);
    assert (written + 3 - (k - 1)) % HistorySlots == (h'.head + 3 - k) % HistorySlots;
  }

  /** After the fifth of races e1..e5 the slot just written holds e5 (shown by
      the times display) and "Previous results" lists e4, e3, e2: the walk
      never revisits the slot just written, and e1 has been overwritten. */
  lemma FifthRaceDisplay(h: History, lanes: nat, es: seq<seq<int>>)
    requires Valid(h) && 1 <= lanes <= MaxLanes
    requires |es| == 5 && forall m :: 0 <= m < |es| ==> |es[m]| >= lanes
    ensures var h' := PushAll(h, lanes, es);
      var written := (h'.head + 3) % HistorySlots;
      Entry(h', written, lanes) == es[4][..lanes] &&
      Previous(h', written, lanes) == [es[3][..lanes], es[2][..lanes], es[1][..lanes]]
  {
    NewestEntries(h, lanes, es, 0);
    PreviousRow(h, lanes, es, 1);
    PreviousRow(h, lanes, es, 2);
    PreviousRow(h, lanes, es, 3);
  }
}
