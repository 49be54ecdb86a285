/** What discarding a selection takes out of the set (DiscardOwned in pkg/models/pending_edit.go). The
    selection is checked by version, but each of its entries then removes the first edit left of its cell. */
module PendingEditDiscards {
  import opened Common
  import opened RowValues
  import opened PendingEdits

  /** The cell an edit addresses; rows that are one row have one canonical key. */
  datatype Cell = Cell(column: string, key: Row)

  function CellOf(e: PendingEdit): Cell { Cell(e.column, CanonicalRow(e.primaryKey)) }

  lemma SameCellIsCell(e: PendingEdit, x: PendingEdit)
    ensures SameCell(e, x.primaryKey, x.column) <==> CellOf(e) == CellOf(x)
  {
    RowEqualIsCanonical(e.primaryKey, x.primaryKey);
  }

  /** How many of the edits address the cell. */
  function CellCount(edits: seq<PendingEdit>, c: Cell): nat {
    if edits == [] then 0
    else CellCount(edits[..|edits| - 1], c) + if CellOf(edits[|edits| - 1]) == c then 1 else 0
  }

  /** The edits that outlast a selection: the i-th edit of a cell does when the selection names the cell at most
      i times. */
  function Survivors(edits: seq<PendingEdit>, selected: seq<PendingEdit>): seq<PendingEdit>
    decreases |edits|
  {
    if edits == [] then []
    else
      var n := |edits| - 1;
      var c := CellOf(edits[n]);
      Survivors(edits[..n], selected)
        + if CellCount(edits[..n], c) >= CellCount(selected, c) then [edits[n]] else []
  }

  lemma {:induction false} FindSnoc(edits: seq<PendingEdit>, e: PendingEdit, pk: Row, col: string)
    ensures FindCell(edits + [e], pk, col)
      == if FindCell(edits, pk, col) < |edits| then FindCell(edits, pk, col)
         else if SameCell(e, pk, col) then |edits| else |edits| + 1
    decreases |edits|
  {
    var all := edits + [e];
    if edits == [] {
      assert all[1..] == [];
    } else {
      assert all[1..] == edits[1..] + [e] && all[0] == edits[0];
      if !SameCell(edits[0], pk, col) {
        FindSnoc(edits[1..], e, pk, col);
      }
    }
  }

  lemma RemovedSnoc(edits: seq<PendingEdit>, e: PendingEdit, pk: Row, col: string)
    ensures FindCell(edits, pk, col) <= |edits|
    ensures FindCell(edits, pk, col) == |edits| ==> RemovedCell(edits, pk, col) == edits
    ensures RemovedCell(edits + [e], pk, col)
      == if FindCell(edits, pk, col) < |edits| then RemovedCell(edits, pk, col) + [e]
         else if SameCell(e, pk, col) then edits else edits + [e]
  {
    FindSnoc(edits, e, pk, col);
    hide FindCell, SameCell;
    var k := FindCell(edits, pk, col);
    if k < |edits| {
      assert Without(edits + [e], k) == Without(edits, k) + [e];
    } else {
      assert Without(edits + [e], |edits|) == edits;
    }
  }

  lemma LastSurvives(edits: seq<PendingEdit>, selected: seq<PendingEdit>)
    requires edits != []
    ensures var n := |edits| - 1;
      var rest, c := Survivors(edits[..n], selected), CellOf(edits[n]);
      && CellCount(edits, c) == CellCount(edits[..n], c) + 1
      && (forall d :: d != c ==> CellCount(edits, d) == CellCount(edits[..n], d))
      && Survivors(edits, selected)
         == if CellCount(edits[..n], c) >= CellCount(selected, c) then rest + [edits[n]] else rest
  {
  }

  /** One more entry in the selection removes the first survivor of its cell. */
  lemma {:induction false} OneMoreEntry(edits: seq<PendingEdit>, selected: seq<PendingEdit>, x: PendingEdit)
    ensures var left := Survivors(edits, selected);
      && Survivors(edits, selected + [x]) == RemovedCell(left, x.primaryKey, x.column)
      && (FindCell(left, x.primaryKey, x.column) < |left|
          <==> CellCount(edits, CellOf(x)) > CellCount(selected, CellOf(x)))
    decreases |edits|
  {
    hide RemovedCell, FindCell, SameCell, CellOf, CellCount, Survivors;
    var more := selected + [x];
    assert more[..|more| - 1] == selected && more[|more| - 1] == x;
    LastSurvives(more, []);
    if edits == [] {
      NothingRemoved(selected, more, x.primaryKey, x.column, CellOf(x));
    } else {
      var n := |edits| - 1;
      var e, left := edits[n], Survivors(edits[..n], selected);
      OneMoreEntry(edits[..n], selected, x);
      SameCellIsCell(e, x);
      LastSurvives(edits, selected);
      LastSurvives(edits, more);
      RemovedSnoc(left, e, x.primaryKey, x.column);
      FindSnoc(left, e, x.primaryKey, x.column);
    }
  }

  lemma NothingRemoved(selected: seq<PendingEdit>, more: seq<PendingEdit>, pk: Row, col: string, c: Cell)
    ensures RemovedCell([], pk, col) == [] && FindCell([], pk, col) == 0
    ensures Survivors([], selected) == [] && Survivors([], more) == [] && CellCount([], c) == 0
  {
  }

  lemma {:induction false} NoEntry(edits: seq<PendingEdit>)
    ensures Survivors(edits, []) == edits
    decreases |edits|
  {
    if edits != [] {
      NoEntry(edits[..|edits| - 1]);
    }
  }

  /** Removing the cells of a selection one by one leaves exactly the survivors. */
  lemma {:induction false} RemovedAreSurvivors(edits: seq<PendingEdit>, selected: seq<PendingEdit>)
    ensures RemovedCells(edits, selected) == Survivors(edits, selected)
    decreases |selected|
  {
    if selected == [] {
      NoEntry(edits);
    } else {
      var n := |selected| - 1;
      RemovedAreSurvivors(edits, selected[..n]);
      OneMoreEntry(edits, selected[..n], selected[n]);
      assert selected == selected[..n] + [selected[n]];
    }
  }

  predicate Distinct(edits: seq<PendingEdit>) {
    forall i, j :: 0 <= i < j < |edits| ==> edits[i] != edits[j]
  }

  /** The edit at `i` is taken: the selection names its cell more often than edits stand before it. */
  predicate Taken(edits: seq<PendingEdit>, selected: seq<PendingEdit>, i: nat)
    requires i < |edits|
  {
    CellCount(edits[..i], CellOf(edits[i])) < CellCount(selected, CellOf(edits[i]))
  }

  lemma {:induction false} SurvivesUntaken(edits: seq<PendingEdit>, selected: seq<PendingEdit>, i: nat)
    requires Distinct(edits) && i < |edits|
    ensures edits[i] in Survivors(edits, selected) <==> !Taken(edits, selected, i)
    ensures forall e :: e in Survivors(edits, selected) ==> e in edits
    decreases |edits|
  {
    var n := |edits| - 1;
    if i < n {
      SurvivesUntaken(edits[..n], selected, i);
      assert edits[..n][..i] == edits[..i];
    } else if n > 0 {
      SurvivesUntaken(edits[..n], selected, 0);
    }
  }

  // ---------------------------------------------------------------------------------------------
  // Selections of staged edits

  /** How many of the edits of the cell are selected. */
  function PickedCount(edits: seq<PendingEdit>, selected: seq<PendingEdit>, c: Cell): nat
    decreases |edits|
  {
    if edits == [] then 0
    else
      var n := |edits| - 1;
      PickedCount(edits[..n], selected, c) + if CellOf(edits[n]) == c && edits[n] in selected then 1 else 0
  }

  lemma {:induction false} PickedSnoc(edits: seq<PendingEdit>, selected: seq<PendingEdit>, x: PendingEdit, c: Cell)
    requires Distinct(edits)
    ensures PickedCount(edits, selected + [x], c)
      == PickedCount(edits, selected, c) + if x in edits && x !in selected && CellOf(x) == c then 1 else 0
    decreases |edits|
  {
    if edits != [] {
      PickedSnoc(edits[..|edits| - 1], selected, x, c);
    }
  }

  lemma {:induction false} PickedNone(edits: seq<PendingEdit>, c: Cell)
    ensures PickedCount(edits, [], c) == 0
    decreases |edits|
  {
    if edits != [] {
      PickedNone(edits[..|edits| - 1], c);
    }
  }

  /** The selection names an edit of the cell twice. */
  predicate NamesTwice(selected: seq<PendingEdit>, c: Cell) {
    exists k, l :: 0 <= k < l < |selected| && selected[k] == selected[l] && CellOf(selected[k]) == c
  }

  /** A selection of staged edits names a cell as often as it has picked edits there, unless it repeats one. */
  lemma {:induction false} PickedIsNamed(edits: seq<PendingEdit>, selected: seq<PendingEdit>, c: Cell)
    requires Distinct(edits) && forall x :: x in selected ==> x in edits
    ensures PickedCount(edits, selected, c) <= CellCount(selected, c)
    ensures PickedCount(edits, selected, c) == CellCount(selected, c) <==> !NamesTwice(selected, c)
    decreases |selected|
  {
    if selected == [] {
      PickedNone(edits, c);
    } else {
      var n := |selected| - 1;
      var x := selected[n];
      assert selected == selected[..n] + [x];
      PickedIsNamed(edits, selected[..n], c);
      PickedSnoc(edits, selected[..n], x, c);
      assert x in selected;
      NamesTwiceSnoc(selected, c);
    }
  }

  lemma NamesTwiceSnoc(selected: seq<PendingEdit>, c: Cell)
    requires selected != []
    ensures var n := |selected| - 1;
      NamesTwice(selected, c)
      <==> NamesTwice(selected[..n], c) || (selected[n] in selected[..n] && CellOf(selected[n]) == c)
  {
    var n := |selected| - 1;
    var init := selected[..n];
    if NamesTwice(selected, c) {
      var k, l :| 0 <= k < l < |selected| && selected[k] == selected[l] && CellOf(selected[k]) == c;
      if l < n {
        assert init[k] == init[l];
      } else {
        assert init[k] == selected[n];
      }
    }
    if NamesTwice(init, c) {
      var k, l :| 0 <= k < l < n && init[k] == init[l] && CellOf(init[k]) == c;
      assert selected[k] == selected[l];
    }
    if selected[n] in init && CellOf(selected[n]) == c {
      var k :| 0 <= k < n && init[k] == selected[n];
      assert selected[k] == selected[n];
    }
  }

  lemma {:induction false} CountsGrow(edits: seq<PendingEdit>, selected: seq<PendingEdit>, c: Cell, i: nat, j: nat)
    requires i <= j <= |edits|
    ensures CellCount(edits[..i], c) <= CellCount(edits[..j], c)
    ensures PickedCount(edits[..i], selected, c) <= PickedCount(edits[..j], selected, c)
    decreases j
  {
    if i < j {
      CountsGrow(edits, selected, c, i, j - 1);
      assert edits[..j][..j - 1] == edits[..j - 1];
    }
  }

  /** No picked edit of the cell at `i` or behind it. */
  predicate NonePickedFrom(edits: seq<PendingEdit>, selected: seq<PendingEdit>, c: Cell, i: nat) {
    forall j :: i <= j < |edits| && CellOf(edits[j]) == c ==> edits[j] !in selected
  }

  lemma {:induction false} PickedBefore(edits: seq<PendingEdit>, selected: seq<PendingEdit>, c: Cell, i: nat, j: nat)
    requires i <= j <= |edits| && NonePickedFrom(edits, selected, c, i)
    ensures PickedCount(edits[..j], selected, c) == PickedCount(edits[..i], selected, c) <= CellCount(edits[..i], c)
    decreases j
  {
    if i < j {
      PickedBefore(edits, selected, c, i, j - 1);
      assert edits[..j][..j - 1] == edits[..j - 1];
    } else if i > 0 {
      assert edits[..i][..i - 1] == edits[..i - 1];
      PickedAtMost(edits[..i], selected, c);
    }
  }

  lemma {:induction false} PickedAtMost(edits: seq<PendingEdit>, selected: seq<PendingEdit>, c: Cell)
    ensures PickedCount(edits, selected, c) <= CellCount(edits, c)
    decreases |edits|
  {
    if edits != [] {
      PickedAtMost(edits[..|edits| - 1], selected, c);
    }
  }

  /** A selected edit of the same cell stands behind the one at `i`. */
  predicate PickedBehind(edits: seq<PendingEdit>, selected: seq<PendingEdit>, i: nat)
    requires i < |edits|
  {
    exists j :: i < j < |edits| && CellOf(edits[j]) == CellOf(edits[i]) && edits[j] in selected
  }

  /** An edit nobody selected is taken only instead of a selected one behind it, or for an entry that is there
      twice. */
  lemma {:induction false} TakenInstead(edits: seq<PendingEdit>, selected: seq<PendingEdit>, i: nat)
    requires Distinct(edits) && (forall x :: x in selected ==> x in edits) && i < |edits|
    requires edits[i] !in selected && Taken(edits, selected, i)
    ensures PickedBehind(edits, selected, i) || NamesTwice(selected, CellOf(edits[i]))
  {
    var c := CellOf(edits[i]);
    if !PickedBehind(edits, selected, i) {
      assert NonePickedFrom(edits, selected, c, i);
      PickedBefore(edits, selected, c, i, |edits|);
      assert edits[..|edits|] == edits;
      PickedIsNamed(edits, selected, c);
    }
  }

  /** An edit nobody selected goes for another: for a selected one of its cell behind it, or for a repeated
      entry. */
  predicate GoesForAnother(edits: seq<PendingEdit>, selected: seq<PendingEdit>, e: PendingEdit) {
    exists i :: 0 <= i < |edits| && edits[i] == e
      && (PickedBehind(edits, selected, i) || NamesTwice(selected, CellOf(e)))
  }

  lemma DiscardLoses(edits: seq<PendingEdit>, selected: seq<PendingEdit>, e: PendingEdit)
    requires Distinct(edits) && forall x :: x in selected ==> x in edits
    requires e in edits && e !in RemovedCells(edits, selected)
    ensures e in selected || GoesForAnother(edits, selected, e)
  {
    var i :| 0 <= i < |edits| && edits[i] == e;
    RemovedAreSurvivors(edits, selected);
    SurvivesUntaken(edits, selected, i);
    if e !in selected {
      TakenInstead(edits, selected, i);
    }
  }

  // ---------------------------------------------------------------------------------------------
  // Exact discards

  /** The discard takes the selected edits and no others. */
  predicate Exact(edits: seq<PendingEdit>, selected: seq<PendingEdit>) {
    && (forall e :: e in RemovedCells(edits, selected) ==> e in edits && e !in selected)
    && (forall e :: e in edits && e !in selected ==> e in RemovedCells(edits, selected))
  }

  /** Where an edit is left out, no edit of its cell behind it is selected, and none of its cell twice. */
  predicate SelectsFirst(edits: seq<PendingEdit>, selected: seq<PendingEdit>) {
    forall i :: 0 <= i < |edits| && edits[i] !in selected ==>
      !PickedBehind(edits, selected, i) && !NamesTwice(selected, CellOf(edits[i]))
  }

  lemma ExactIsTaken(edits: seq<PendingEdit>, selected: seq<PendingEdit>)
    requires Distinct(edits)
    ensures Exact(edits, selected) <==> forall i :: 0 <= i < |edits| ==> (Taken(edits, selected, i) <==> edits[i] in selected)
  {
    hide Taken;
    RemovedAreSurvivors(edits, selected);
    forall i | 0 <= i < |edits|
      ensures edits[i] in RemovedCells(edits, selected) <==> !Taken(edits, selected, i)
    {
      SurvivesUntaken(edits, selected, i);
    }
    if edits != [] {
      SurvivesUntaken(edits, selected, 0);
    }
    if forall i :: 0 <= i < |edits| ==> (Taken(edits, selected, i) <==> edits[i] in selected) {
      forall e | e in edits ensures e in RemovedCells(edits, selected) <==> e !in selected {
        var i :| 0 <= i < |edits| && edits[i] == e;
      }
    }
    if Exact(edits, selected) {
      forall i | 0 <= i < |edits| ensures Taken(edits, selected, i) <==> edits[i] in selected {
        assert edits[i] in edits;
      }
    }
  }

  /** All edits of the cell before a picked one are picked, so it is taken. */
  lemma {:induction false} AllPickedBefore(edits: seq<PendingEdit>, selected: seq<PendingEdit>, c: Cell, i: nat)
    requires i <= |edits| && forall m :: 0 <= m < i && CellOf(edits[m]) == c ==> edits[m] in selected
    ensures PickedCount(edits[..i], selected, c) == CellCount(edits[..i], c)
    decreases i
  {
    if i > 0 {
      AllPickedBefore(edits, selected, c, i - 1);
      assert edits[..i][..i - 1] == edits[..i - 1];
    }
  }

  /** Every taken edit before an untaken one is picked, so at least as many are picked as the selection names. */
  lemma {:induction false} TakenArePicked(edits: seq<PendingEdit>, selected: seq<PendingEdit>, c: Cell, i: nat)
    requires i <= |edits|
    requires forall m :: 0 <= m < i && Taken(edits, selected, m) ==> edits[m] in selected
    ensures var named := CellCount(selected, c);
      PickedCount(edits[..i], selected, c) >= if CellCount(edits[..i], c) < named then CellCount(edits[..i], c) else named
    decreases i
  {
    if i > 0 {
      TakenArePicked(edits, selected, c, i - 1);
      assert edits[..i][..i - 1] == edits[..i - 1];
      assert CellOf(edits[i - 1]) == c && CellCount(edits[..i - 1], c) < CellCount(selected, c) ==>
        Taken(edits, selected, i - 1);
    }
  }

  lemma SelectedIsTaken(edits: seq<PendingEdit>, selected: seq<PendingEdit>, i: nat)
    requires Distinct(edits) && (forall x :: x in selected ==> x in edits) && SelectsFirst(edits, selected)
    requires i < |edits| && edits[i] in selected
    ensures Taken(edits, selected, i)
  {
    var c := CellOf(edits[i]);
    forall m | 0 <= m < i && CellOf(edits[m]) == c ensures edits[m] in selected {
      assert PickedBehind(edits, selected, m);
    }
    AllPickedBefore(edits, selected, c, i);
    assert edits[..i + 1][..i] == edits[..i];
    CountsGrow(edits, selected, c, i + 1, |edits|);
    assert edits[..|edits|] == edits;
    PickedIsNamed(edits, selected, c);
  }

  lemma UntakenSelectsFirst(edits: seq<PendingEdit>, selected: seq<PendingEdit>, i: nat)
    requires Distinct(edits) && (forall x :: x in selected ==> x in edits)
    requires forall m :: 0 <= m < |edits| ==> (Taken(edits, selected, m) <==> edits[m] in selected)
    requires i < |edits| && edits[i] !in selected
    ensures !PickedBehind(edits, selected, i) && !NamesTwice(selected, CellOf(edits[i]))
  {
    var c := CellOf(edits[i]);
    assert !Taken(edits, selected, i);
    forall j | i < j < |edits| && CellOf(edits[j]) == c ensures edits[j] !in selected {
      CountsGrow(edits, selected, c, i, j);
      assert !Taken(edits, selected, j);
    }
    TakenArePicked(edits, selected, c, i);
    CountsGrow(edits, selected, c, i, |edits|);
    assert edits[..|edits|] == edits;
    PickedIsNamed(edits, selected, c);
  }

  /** A discard of staged edits is exact if and only if, in every cell, the selection takes the edits from the
      first on, and repeats none unless it takes them all. */
  lemma ExactIsSelectsFirst(edits: seq<PendingEdit>, selected: seq<PendingEdit>)
    requires Distinct(edits) && forall x :: x in selected ==> x in edits
    ensures Exact(edits, selected) <==> SelectsFirst(edits, selected)
  {
    hide Exact, Taken, SelectsFirst, PickedBehind, NamesTwice;
    ExactIsTaken(edits, selected);
    if Exact(edits, selected) {
      forall i | 0 <= i < |edits| && edits[i] !in selected
        ensures !PickedBehind(edits, selected, i) && !NamesTwice(selected, CellOf(edits[i]))
      {
        UntakenSelectsFirst(edits, selected, i);
      }
      SelectsFirstFrom(edits, selected);
    }
    if SelectsFirst(edits, selected) {
      forall i | 0 <= i < |edits| ensures Taken(edits, selected, i) <==> edits[i] in selected {
        if edits[i] in selected {
          SelectedIsTaken(edits, selected, i);
        } else if Taken(edits, selected, i) {
          TakenInstead(edits, selected, i);
          SelectsFirstAt(edits, selected, i);
        }
      }
    }
  }

  lemma SelectsFirstAt(edits: seq<PendingEdit>, selected: seq<PendingEdit>, i: nat)
    requires SelectsFirst(edits, selected) && i < |edits| && edits[i] !in selected
    ensures !PickedBehind(edits, selected, i) && !NamesTwice(selected, CellOf(edits[i]))
  {
  }

  lemma SelectsFirstFrom(edits: seq<PendingEdit>, selected: seq<PendingEdit>)
    requires forall i :: 0 <= i < |edits| && edits[i] !in selected ==>
      !PickedBehind(edits, selected, i) && !NamesTwice(selected, CellOf(edits[i]))
    ensures SelectsFirst(edits, selected)
  {
  }
}
