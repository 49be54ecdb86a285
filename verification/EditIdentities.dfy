/** The physical meaning of a staged key: which relation, which columns, in which order
    (pkg/models/edit_identity.go). */
module EditIdentities {
  import opened Common
  import opened RowValues

  datatype IdentityColumn = IdentityColumn(attnum: nat, name: string)

  datatype EditIdentity = EditIdentity(relationOID: nat, columns: seq<IdentityColumn>)

  const UNBOUND := EditIdentity(0, [])

  /** EditIdentity.Validate: a bound relation, at least one column, no repeated number or name. */
  predicate Validate(id: EditIdentity) {
    && id.relationOID != 0
    && id.columns != []
    && (forall i :: 0 <= i < |id.columns| ==> id.columns[i].attnum > 0 && id.columns[i].name != "")
    && (forall i, j :: 0 <= j < i < |id.columns| ==>
          id.columns[j].attnum != id.columns[i].attnum && id.columns[j].name != id.columns[i].name)
  }

  /** EditIdentity.Compatible: checked in one direction only, receiver's columns among `other`'s. */
  predicate Compatible(id: EditIdentity, other: EditIdentity) {
    && Validate(id) && Validate(other)
    && id.relationOID == other.relationOID
    && |id.columns| == |other.columns|
    && forall i :: 0 <= i < |id.columns| ==> id.columns[i] in other.columns
  }

  /** slices.Index: the first position of `col`. */
  function IndexOf(cols: seq<IdentityColumn>, col: IdentityColumn): (k: nat)
    requires col in cols
    ensures k < |cols| && cols[k] == col
    ensures forall i :: 0 <= i < k ==> cols[i] != col
  {
    if cols[0] == col then 0 else 1 + IndexOf(cols[1..], col)
  }

  /** The value of each of `id`'s columns, taken from `values` written in `other`'s order. */
  function Reordered(id: EditIdentity, other: EditIdentity, values: Row): (r: Row)
    requires Compatible(id, other) && |values| == |other.columns|
    ensures |r| == |id.columns|
    ensures forall i, j :: 0 <= i < |id.columns| && 0 <= j < |other.columns| && id.columns[i] == other.columns[j] ==>
      r[i] == values[j]
  {
    seq(|id.columns|, i requires 0 <= i < |id.columns| => values[IndexOf(other.columns, id.columns[i])])
  }

  /** EditIdentity.Normalize. */
  function Normalize(id: EditIdentity, other: EditIdentity, values: Row): Option<Row> {
    if Compatible(id, other) && |values| == |other.columns| then Some(Reordered(id, other, values)) else None
  }

  method NormalizeValues(id: EditIdentity, other: EditIdentity, values: Row) returns (r: Option<Row>)
    ensures r == Normalize(id, other, values)
  {
    if !Compatible(id, other) || |values| != |other.columns| {
      return None;
    }
    var out: Row := [];
    for i := 0 to |id.columns|
      invariant out == Reordered(id, other, values)[..i]
    {
      out := out + [values[IndexOf(other.columns, id.columns[i])]];
    }
    assert out == Reordered(id, other, values);
    return Some(out);
  }

  // ---------------------------------------------------------------------------------------------
  // Compatible is an equivalence although the code checks one inclusion only.

  ghost function Members(cols: seq<IdentityColumn>): set<IdentityColumn> {
    set c | c in cols
  }

  lemma {:induction false} DistinctCount(cols: seq<IdentityColumn>)
    requires forall i, j :: 0 <= j < i < |cols| ==> cols[j] != cols[i]
    ensures |Members(cols)| == |cols|
    decreases |cols|
  {
    if cols != [] {
      var front, last := cols[..|cols| - 1], cols[|cols| - 1];
      DistinctCount(front);
      assert Members(cols) == Members(front) + {last};
      assert last !in front;
    }
  }

  lemma {:induction false} FullSubset<T>(a: set<T>, b: set<T>)
    requires a <= b && |a| == |b|
    ensures a == b
  {
    assert b == a + (b - a);
    assert |b - a| == 0;
  }

  /** Symmetry by the pigeonhole principle: equally many distinct columns, one inclusion. */
  lemma {:induction false} CompatibleSymmetric(a: EditIdentity, b: EditIdentity)
    requires Compatible(a, b)
    ensures Compatible(b, a)
  {
    DistinctCount(a.columns);
    DistinctCount(b.columns);
    assert Members(a.columns) <= Members(b.columns);
    FullSubset(Members(a.columns), Members(b.columns));
    forall i | 0 <= i < |b.columns| ensures b.columns[i] in a.columns {
      assert b.columns[i] in Members(b.columns);
    }
  }

  lemma {:induction false} CompatibleIsEquivalence(a: EditIdentity, b: EditIdentity, c: EditIdentity)
    ensures Validate(a) <==> Compatible(a, a)
    ensures Compatible(a, b) <==> Compatible(b, a)
    ensures Compatible(a, b) && Compatible(b, c) ==> Compatible(a, c)
  {
    if Compatible(a, b) { CompatibleSymmetric(a, b); }
    if Compatible(b, a) { CompatibleSymmetric(b, a); }
    if Compatible(a, b) && Compatible(b, c) {
      forall i | 0 <= i < |a.columns| ensures a.columns[i] in c.columns {
        var k := IndexOf(b.columns, a.columns[i]);
        assert b.columns[k] in c.columns;
      }
    }
  }

  /** Reordering there and back restores the tuple. */
  lemma {:induction false} NormalizeRoundTrip(a: EditIdentity, b: EditIdentity, values: Row)
    requires Compatible(a, b) && |values| == |b.columns|
    ensures Compatible(b, a) && Normalize(b, a, Reordered(a, b, values)) == Some(values)
  {
    CompatibleSymmetric(a, b);
    var there := Reordered(a, b, values);
    var back := Reordered(b, a, there);
    forall j | 0 <= j < |values| ensures back[j] == values[j] {
      var i := IndexOf(a.columns, b.columns[j]);
      assert back[j] == there[i];
    }
    assert back == values;
  }

  /** Reordering through an intermediate column order is reordering directly. */
  lemma {:induction false} NormalizeComposes(a: EditIdentity, b: EditIdentity, c: EditIdentity, values: Row)
    requires Compatible(a, b) && Compatible(b, c) && |values| == |c.columns|
    ensures Compatible(a, c)
    ensures Normalize(a, b, Reordered(b, c, values)) == Normalize(a, c, values)
  {
    CompatibleIsEquivalence(a, b, c);
    var mid := Reordered(b, c, values);
    var direct := Reordered(a, c, values);
    var via := Reordered(a, b, mid);
    forall i | 0 <= i < |a.columns| ensures via[i] == direct[i] {
      var j := IndexOf(b.columns, a.columns[i]);
      var k := IndexOf(c.columns, b.columns[j]);
      assert via[i] == mid[j] == values[k] == direct[i];
    }
    assert via == direct;
  }
}
