/** Where `writeTableToWorksheet` puts each data record, described on rows
    alone: a reference model of the pagination in lib/TableWriter.php:37-55,
    independent of cells and cursors. The writer's fragments are numbered
    from 0; `budget` is `rowsPerSheet`, `r0` the row of the first fragment's
    heading and `rs` the start row every later fragment begins at. */
module Pagination {
  import opened Wrappers

  /** The (fragment, row) of the k-th record (from 0). The budget is checked
      on the row the record would start from: the row below the first
      heading for the first record, the row below the previous record for
      the others. Past the budget the record opens a new fragment, where it
      lands below that fragment's heading and header rows; otherwise it goes
      right below the previous record, or below the first fragment's header
      row for the first record. */
  function Slot(budget: int, r0: int, rs: int, k: nat): (s: (nat, int))
    decreases k
  {
    if k == 0 then
      if r0 + 1 > budget then (1, rs + 2) else (0, r0 + 2)
    else
      var prev := Slot(budget, r0, rs, k - 1);
      if prev.1 + 1 > budget then (prev.0 + 1, rs + 2) else (prev.0, prev.1 + 1)
  }

  /** How many fragments n records produce (the first always exists). */
  function FragmentCount(budget: int, r0: int, rs: int, n: nat): (c: nat)
    ensures c >= 1
  {
    if n == 0 then 1 else Slot(budget, r0, rs, n - 1).0 + 1
  }

  /** Record k is the first one of its fragment, so a header row goes above it. */
  predicate OpensFragment(budget: int, r0: int, rs: int, k: nat) {
    k == 0 || Slot(budget, r0, rs, k - 1).0 < Slot(budget, r0, rs, k).0
  }

  /** Lexicographic order on (fragment, row). */
  predicate Before(a: (nat, int), b: (nat, int)) {
    a.0 < b.0 || (a.0 == b.0 && a.1 < b.1)
  }

  /** One record to the next: the same fragment one row down, or the next
      fragment's first data row, entered only when the budget was exceeded. */
  lemma SlotStep(budget: int, r0: int, rs: int, k: nat)
    ensures var (a, b) := (Slot(budget, r0, rs, k), Slot(budget, r0, rs, k + 1));
      && ((b.0 == a.0 && b.1 == a.1 + 1 && a.1 + 1 <= budget)
          || (b.0 == a.0 + 1 && b.1 == rs + 2 && a.1 + 1 > budget))
  {
  }

  /** Records are laid out in order, each on its own (fragment, row): no two
      records share a row and a later record never lands above an earlier one. */
  lemma {:induction false} SlotsOrdered(budget: int, r0: int, rs: int, k: nat, l: nat)
    requires k < l
    ensures Before(Slot(budget, r0, rs, k), Slot(budget, r0, rs, l))
    decreases l
  {
    SlotStep(budget, r0, rs, l - 1);
    if k < l - 1 {
      SlotsOrdered(budget, r0, rs, k, l - 1);
    }
  }

  /** Only the first record of a fragment may lie past the budget: it is
      written below the heading and header rows whatever the budget. */
  lemma SlotWithinBudget(budget: int, r0: int, rs: int, k: nat)
    ensures !OpensFragment(budget, r0, rs, k) ==> Slot(budget, r0, rs, k).1 <= budget
    ensures OpensFragment(budget, r0, rs, k) ==>
              Slot(budget, r0, rs, k).1 == (if Slot(budget, r0, rs, k).0 == 0 then r0 + 2 else rs + 2)
  {
    if k > 0 {
      SlotStep(budget, r0, rs, k - 1);
    }
  }

  /** Fragments are numbered without gaps: every fragment from 1 up to
      the last one used opens with a record. */
  lemma {:induction false} FragmentOpened(budget: int, r0: int, rs: int, k: nat, j: nat)
    requires 1 <= j <= Slot(budget, r0, rs, k).0
    ensures exists l :: 0 <= l <= k && Slot(budget, r0, rs, l).0 == j && OpensFragment(budget, r0, rs, l)
    decreases k
  {
    if k > 0 {
      SlotStep(budget, r0, rs, k - 1);
      if j <= Slot(budget, r0, rs, k - 1).0 {
        FragmentOpened(budget, r0, rs, k - 1, j);
      } else {
        assert OpensFragment(budget, r0, rs, k);
      }
    } else {
      assert OpensFragment(budget, r0, rs, 0);
    }
  }

  /** Records the first fragment holds: none when the row below its heading
      is already past the budget, else every record starting on a row
      within the budget, and always at least the first. */
  function FirstCapacity(budget: int, r0: int): nat {
    if budget <= r0 then 0 else Max(1, budget - r0 - 1)
  }

  /** Records every later fragment holds before the next one opens: those
      from row rs + 2 up to the budget, and always at least one. */
  function Capacity(budget: int, rs: int): nat {
    Max(1, budget - rs - 1)
  }

  /** The row below the last one the first fragment uses after k records:
      its header row and its records run from r0 + 1 up to, not including,
      this row; when it holds no record yet it uses nothing and this is
      r0 + 1. */
  function FirstFragmentEnd(budget: int, r0: int, k: nat): int {
    var m := if k < FirstCapacity(budget, r0) then k else FirstCapacity(budget, r0);
    if m == 0 then r0 + 1 else r0 + 2 + m
  }

  /** Incrementing a number just below a multiple of c carries into the quotient. */
  lemma DivModSucc(x: nat, c: nat)
    requires c > 0
    ensures x % c == c - 1 ==> (x + 1) / c == x / c + 1 && (x + 1) % c == 0
    ensures x % c < c - 1 ==> (x + 1) / c == x / c && (x + 1) % c == x % c + 1
  {
    var q, m := x / c, x % c;
    if m == c - 1 {
      DivModUnique(x + 1, c, q + 1, 0);
    } else {
      DivModUnique(x + 1, c, q, m + 1);
    }
  }

  /** Quotient and remainder are the only pair that rebuilds the dividend. */
  lemma DivModUnique(x: int, c: int, q: int, m: int)
    requires c > 0 && 0 <= m < c && x == c * q + m
    ensures x / c == q && x % c == m
  {
    var q', m' := x / c, x % c;
    assert x == c * q' + m';
    var d := q - q';
    Distribute(c, q', d);
    assert c * d == m' - m;
    if d >= 1 {
      MulAtLeast(c, d);
    } else if d <= -1 {
      Distribute(c, d, -d);
      MulAtLeast(c, -d);
    }
  }

  lemma Distribute(c: int, a: int, b: int)
    ensures c * (a + b) == c * a + c * b
  {
  }

  lemma MulAtLeast(c: int, d: int)
    requires c > 0 && d >= 1
    ensures c * d >= c
  {
  }

  /** The pagination in closed form: the first `FirstCapacity` records fill
      fragment 0 from row r0 + 2 on; the rest fill the later fragments
      `Capacity` at a time, each from row rs + 2 on. */
  function ClosedSlot(budget: int, r0: int, rs: int, k: nat): (nat, int) {
    var c0, c := FirstCapacity(budget, r0), Capacity(budget, rs);
    if k < c0 then (0, r0 + 2 + k) else (1 + (k - c0) / c, rs + 2 + (k - c0) % c)
  }

  /** The closed form moves from one record to the next as `Slot` does. */
  lemma ClosedSlotStep(budget: int, r0: int, rs: int, k: nat)
    ensures var prev := ClosedSlot(budget, r0, rs, k);
      ClosedSlot(budget, r0, rs, k + 1) ==
        if prev.1 + 1 > budget then (prev.0 + 1, rs + 2) else (prev.0, prev.1 + 1)
  {
    var c0, c := FirstCapacity(budget, r0), Capacity(budget, rs);
    if k >= c0 {
      DivModSucc(k - c0, c);
    }
  }

  /** `Slot` agrees with its closed form on every record. */
  lemma {:induction false} SlotClosedForm(budget: int, r0: int, rs: int, k: nat)
    ensures Slot(budget, r0, rs, k) == ClosedSlot(budget, r0, rs, k)
    decreases k
  {
    if k > 0 {
      SlotClosedForm(budget, r0, rs, k - 1);
      ClosedSlotStep(budget, r0, rs, k - 1);
    }
  }

  /** A record on the first fragment extends its rows down to the record's
      own row (and, for the first record, over the header row above it); a
      record on a later fragment leaves them as they were. */
  lemma FirstFragmentEndStep(budget: int, r0: int, rs: int, k: nat)
    ensures Slot(budget, r0, rs, k).0 == 0 ==>
      && FirstFragmentEnd(budget, r0, k + 1) == Slot(budget, r0, rs, k).1 + 1
      && Slot(budget, r0, rs, k).1 == (if k == 0 then r0 + 2 else FirstFragmentEnd(budget, r0, k))
    ensures Slot(budget, r0, rs, k).0 > 0 ==> FirstFragmentEnd(budget, r0, k + 1) == FirstFragmentEnd(budget, r0, k)
  {
    SlotClosedForm(budget, r0, rs, k);
  }
}
