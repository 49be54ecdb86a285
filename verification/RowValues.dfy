/** Values of a row's key columns, and the equality that decides whether two keys name the same row
    (pkg/models/pending_edit.go, RowIdentityEqual and identityValueEqual).

    A driver value is a Go interface. What matters here is its dynamic type and its shape, so a
    value is a tree whose nodes carry the number of their Go type. Pointers and slices carry an address
    as well, because reflect.DeepEqual compares addresses first; arrays and nil slices have none. */
module RowValues {
  import opened Common

  /** An IEEE 754 number: a NaN has a payload, and zero has a sign that `==` ignores. */
  datatype Float = NaN(payload: nat) | Infinite(negative: bool) | Finite(value: real, minusZero: bool)

  datatype Value =
    | Nil
    | Scalar(ty: nat, number: int)
    | Text(ty: nat, text: string)
    | Floating(ty: nat, float: Float)
    | Pointer(ty: nat, address: nat, target: seq<Value>)
    | Interface(ty: nat, content: seq<Value>)
    | Slice(ty: nat, start: Option<nat>, isNil: bool, items: seq<Value>)
    | Struct(ty: nat, fields: seq<Value>)

  type Row = seq<Value>

  /** Go's `==` on floating-point numbers: no NaN equals anything, and -0 equals 0. */
  predicate FloatEqual(a: Float, b: Float) {
    match (a, b)
    case (Infinite(m), Infinite(n)) => m == n
    case (Finite(x, _), Finite(y, _)) => x == y
    case _ => false
  }

  /** reflect.Type equality. Struct types fix the number of fields. */
  predicate SameType(a: Value, b: Value)
    requires !a.Nil? && !b.Nil?
  {
    match (a, b)
    case (Scalar(t, _), Scalar(u, _)) => t == u
    case (Text(t, _), Text(u, _)) => t == u
    case (Floating(t, _), Floating(u, _)) => t == u
    case (Pointer(t, _, _), Pointer(u, _, _)) => t == u
    case (Interface(t, _), Interface(u, _)) => t == u
    case (Slice(t, _, _, _), Slice(u, _, _, _)) => t == u
    case (Struct(t, fs), Struct(u, gs)) => t == u && |fs| == |gs|
    case _ => false
  }

  /** reflect.DeepEqual: the shape of Go's rules, so a NaN is not deeply equal to itself. Equal pointers, and
      slices of one length that start at one element, are equal without a look inside; as nothing changes
      during a comparison, values at one address are the same value. */
  predicate DeepEqual(a: Value, b: Value)
    decreases a
  {
    if a.Nil? || b.Nil? then a.Nil? && b.Nil?
    else if !SameType(a, b) then false
    else
      match a
      case Scalar(_, _) => a == b
      case Text(_, _) => a == b
      case Floating(_, f) => FloatEqual(f, b.float)
      case Pointer(_, _, t) => a == b || DeepEqualAll(t, b.target)
      case Interface(_, c) => DeepEqualAll(c, b.content)
      case Slice(_, start, n, xs) => (start.Some? && a == b) || (n == b.isNil && DeepEqualAll(xs, b.items))
      case Struct(_, fs) => DeepEqualAll(fs, b.fields)
  }

  predicate DeepEqualAll(xs: Row, ys: Row)
    decreases xs
  {
    |xs| == |ys| && (xs == [] || (DeepEqual(xs[0], ys[0]) && DeepEqualAll(xs[1..], ys[1..])))
  }

  /** identityValueEqual: DeepEqual first, then the same descent with NaN equal to NaN. */
  predicate IdentityValueEqual(a: Value, b: Value)
    decreases a
  {
    if a.Nil? || b.Nil? then a.Nil? == b.Nil?
    else if !SameType(a, b) then false
    else if DeepEqual(a, b) then true
    else
      match a
      case Floating(_, f) => f.NaN? && b.float.NaN?
      case Pointer(_, _, t) => t != [] && b.target != [] && RowIdentityEqual(t, b.target)
      case Interface(_, c) => c != [] && b.content != [] && RowIdentityEqual(c, b.content)
      case Slice(_, _, n, xs) => n == b.isNil && RowIdentityEqual(xs, b.items)
      case Struct(_, fs) => RowIdentityEqual(fs, b.fields)
      case Scalar(_, _) => a == b
      case Text(_, _) => a == b
  }

  /** RowIdentityEqual: element by element, lengths must match. */
  predicate RowIdentityEqual(xs: Row, ys: Row)
    decreases xs
  {
    |xs| == |ys| && (xs == [] || (IdentityValueEqual(xs[0], ys[0]) && RowIdentityEqual(xs[1..], ys[1..])))
  }

  // ---------------------------------------------------------------------------------------------
  // The reference: two keys name the same row when their canonical forms are the same value.

  function CanonicalFloat(f: Float): Float {
    match f
    case NaN(_) => NaN(0)
    case Infinite(_) => f
    case Finite(x, _) => Finite(x, false)
  }

  /** A value with every NaN replaced by one NaN, every -0 by 0, and no addresses. */
  function Canonical(v: Value): Value
    decreases v
  {
    match v
    case Nil => v
    case Scalar(_, _) => v
    case Text(_, _) => v
    case Floating(t, f) => Floating(t, CanonicalFloat(f))
    case Pointer(t, _, p) => Pointer(t, 0, CanonicalRow(p))
    case Interface(t, c) => Interface(t, CanonicalRow(c))
    case Slice(t, _, n, xs) => Slice(t, None, n, CanonicalRow(xs))
    case Struct(t, fs) => Struct(t, CanonicalRow(fs))
  }

  function CanonicalRow(xs: Row): (r: Row)
    ensures |r| == |xs|
    decreases xs
  {
    if xs == [] then [] else [Canonical(xs[0])] + CanonicalRow(xs[1..])
  }

  lemma {:induction false} CanonicalRowSplits(xs: Row, ys: Row)
    requires xs != [] && ys != []
    ensures CanonicalRow(xs) == CanonicalRow(ys)
       <==> Canonical(xs[0]) == Canonical(ys[0]) && CanonicalRow(xs[1..]) == CanonicalRow(ys[1..])
  {
    var a, b := CanonicalRow(xs), CanonicalRow(ys);
    assert a[0] == Canonical(xs[0]) && a[1..] == CanonicalRow(xs[1..]);
    assert b[0] == Canonical(ys[0]) && b[1..] == CanonicalRow(ys[1..]);
    assert a == [a[0]] + a[1..] && b == [b[0]] + b[1..];
  }

  lemma {:induction false} DeepEqualIsCanonical(a: Value, b: Value)
    requires DeepEqual(a, b)
    ensures Canonical(a) == Canonical(b)
    decreases a
  {
    match a
    case Pointer(_, _, t) => if a != b { DeepEqualAllIsCanonical(t, b.target); }
    case Interface(_, c) => DeepEqualAllIsCanonical(c, b.content);
    case Slice(_, _, _, xs) => if a != b { DeepEqualAllIsCanonical(xs, b.items); }
    case Struct(_, fs) => DeepEqualAllIsCanonical(fs, b.fields);
    case _ =>
  }

  lemma {:induction false} DeepEqualAllIsCanonical(xs: Row, ys: Row)
    requires DeepEqualAll(xs, ys)
    ensures CanonicalRow(xs) == CanonicalRow(ys)
    decreases xs
  {
    if xs != [] {
      DeepEqualIsCanonical(xs[0], ys[0]);
      DeepEqualAllIsCanonical(xs[1..], ys[1..]);
    }
  }

  lemma {:induction false} ValueEqualIsCanonical(a: Value, b: Value)
    ensures IdentityValueEqual(a, b) <==> Canonical(a) == Canonical(b)
    decreases a
  {
    if !a.Nil? && !b.Nil? && SameType(a, b) {
      if DeepEqual(a, b) {
        DeepEqualIsCanonical(a, b);
      } else {
        match a
        case Pointer(_, _, t) =>
          RowEqualIsCanonical(t, b.target);
          assert t == [] ==> !DeepEqualAll(t, b.target);
        case Interface(_, c) =>
          RowEqualIsCanonical(c, b.content);
          assert c == [] ==> !DeepEqualAll(c, b.content);
        case Slice(_, _, _, xs) => RowEqualIsCanonical(xs, b.items);
        case Struct(_, fs) => RowEqualIsCanonical(fs, b.fields);
        case _ =>
      }
    }
  }

  /** The fast test with its DeepEqual shortcut decides exactly sameness of canonical forms. */
  lemma {:induction false} RowEqualIsCanonical(xs: Row, ys: Row)
    ensures RowIdentityEqual(xs, ys) <==> CanonicalRow(xs) == CanonicalRow(ys)
    decreases xs
  {
    if |xs| == |ys| && xs != [] {
      ValueEqualIsCanonical(xs[0], ys[0]);
      RowEqualIsCanonical(xs[1..], ys[1..]);
      CanonicalRowSplits(xs, ys);
    }
  }

  /** Row identity is an equivalence, NaN keys included, although DeepEqual and `==` are not. */
  lemma {:induction false} RowIdentityIsEquivalence(a: Row, b: Row, c: Row)
    ensures RowIdentityEqual(a, a)
    ensures RowIdentityEqual(a, b) ==> RowIdentityEqual(b, a)
    ensures RowIdentityEqual(a, b) && RowIdentityEqual(b, c) ==> RowIdentityEqual(a, c)
  {
    RowEqualIsCanonical(a, a);
    RowEqualIsCanonical(a, b);
    RowEqualIsCanonical(b, a);
    RowEqualIsCanonical(b, c);
    RowEqualIsCanonical(a, c);
  }

  /** reflect.DeepEqual alone would not do: it separates a NaN key from itself. */
  lemma DeepEqualIsNotReflexive()
    ensures exists a: Row :: !DeepEqualAll(a, a)
  {
    var nan: Row := [Floating(0, NaN(0))];
    assert !DeepEqual(nan[0], nan[0]);
    assert !DeepEqualAll(nan, nan);
  }

  // ---------------------------------------------------------------------------------------------
  // Unexported fields

  /** The same descent below an unexported field, where reflection offers no DeepEqual: ordinary numbers and
      nil pointers are then equal to nothing. */
  predicate HiddenEqual(a: Value, b: Value)
    decreases a
  {
    if a.Nil? || b.Nil? then a.Nil? == b.Nil?
    else if !SameType(a, b) then false
    else
      match a
      case Floating(_, f) => f.NaN? && b.float.NaN?
      case Pointer(_, _, t) => t != [] && b.target != [] && HiddenEqualAll(t, b.target)
      case Interface(_, c) => c != [] && b.content != [] && HiddenEqualAll(c, b.content)
      case Slice(_, _, n, xs) => n == b.isNil && HiddenEqualAll(xs, b.items)
      case Struct(_, fs) => HiddenEqualAll(fs, b.fields)
      case Scalar(_, _) => a == b
      case Text(_, _) => a == b
  }

  predicate HiddenEqualAll(xs: Row, ys: Row)
    decreases xs
  {
    |xs| == |ys| && (xs == [] || (HiddenEqual(xs[0], ys[0]) && HiddenEqualAll(xs[1..], ys[1..])))
  }

  /** identityValueEqual on two structs of one type whose fields are all unexported. */
  predicate HiddenStructEqual(fs: Row, gs: Row) { DeepEqualAll(fs, gs) || HiddenEqualAll(fs, gs) }

  /** No NaN in the values outside pointers and slices. */
  predicate Ordinary(xs: Row)
    decreases xs
  {
    xs == [] || (OrdinaryValue(xs[0]) && Ordinary(xs[1..]))
  }

  predicate OrdinaryValue(v: Value)
    decreases v
  {
    match v
    case Floating(_, f) => !f.NaN?
    case Interface(_, c) => Ordinary(c)
    case Slice(_, start, _, xs) => start.Some? || Ordinary(xs)
    case Struct(_, fs) => Ordinary(fs)
    case _ => true
  }

  /** No number but NaN, and no nil pointer or interface, anywhere in the values. */
  predicate NothingButNaN(xs: Row)
    decreases xs
  {
    xs == [] || (NothingButNaNIn(xs[0]) && NothingButNaN(xs[1..]))
  }

  predicate NothingButNaNIn(v: Value)
    decreases v
  {
    match v
    case Floating(_, f) => f.NaN?
    case Pointer(_, _, t) => t != [] && NothingButNaN(t)
    case Interface(_, c) => c != [] && NothingButNaN(c)
    case Slice(_, _, _, xs) => NothingButNaN(xs)
    case Struct(_, fs) => NothingButNaN(fs)
    case _ => true
  }

  lemma {:induction false} DeepEqualToItself(v: Value)
    ensures DeepEqual(v, v) <==> OrdinaryValue(v)
    decreases v
  {
    match v
    case Interface(_, c) => AllDeepEqualToThemselves(c);
    case Slice(_, _, _, xs) => AllDeepEqualToThemselves(xs);
    case Struct(_, fs) => AllDeepEqualToThemselves(fs);
    case _ =>
  }

  lemma {:induction false} AllDeepEqualToThemselves(xs: Row)
    ensures DeepEqualAll(xs, xs) <==> Ordinary(xs)
    decreases xs
  {
    if xs != [] {
      DeepEqualToItself(xs[0]);
      AllDeepEqualToThemselves(xs[1..]);
    }
  }

  lemma {:induction false} HiddenEqualToItself(v: Value)
    ensures HiddenEqual(v, v) <==> NothingButNaNIn(v)
    decreases v
  {
    match v
    case Pointer(_, _, t) => AllHiddenEqualToThemselves(t);
    case Interface(_, c) => AllHiddenEqualToThemselves(c);
    case Slice(_, _, _, xs) => AllHiddenEqualToThemselves(xs);
    case Struct(_, fs) => AllHiddenEqualToThemselves(fs);
    case _ =>
  }

  lemma {:induction false} AllHiddenEqualToThemselves(xs: Row)
    ensures HiddenEqualAll(xs, xs) <==> NothingButNaN(xs)
    decreases xs
  {
    if xs != [] {
      HiddenEqualToItself(xs[0]);
      AllHiddenEqualToThemselves(xs[1..]);
    }
  }

  /** A struct of unexported fields names its own row if and only if it has no NaN outside pointers and
      slices, or no other number and no nil pointer anywhere: with a NaN and a number in two of its fields, it
      is not even identical to itself, but behind a pointer or in a slice they do no harm. */
  lemma HiddenStructIsItself(fs: Row)
    ensures HiddenStructEqual(fs, fs) <==> Ordinary(fs) || NothingButNaN(fs)
  {
    AllDeepEqualToThemselves(fs);
    AllHiddenEqualToThemselves(fs);
  }

  lemma HiddenStructIsNotItself(fs: Row)
    requires fs == [Floating(0, NaN(0)), Floating(0, Finite(1.0, false))]
    ensures !HiddenStructEqual(fs, fs)
    ensures forall start: nat :: HiddenStructEqual([Slice(1, Some(start), false, fs)], [Slice(1, Some(start), false, fs)])
  {
    HiddenStructIsItself(fs);
    assert fs[1..] == [Floating(0, Finite(1.0, false))];
    assert !OrdinaryValue(fs[0]) && !NothingButNaNIn(fs[1..][0]);
    forall start: nat ensures HiddenStructEqual([Slice(1, Some(start), false, fs)], [Slice(1, Some(start), false, fs)]) {
      HiddenStructIsItself([Slice(1, Some(start), false, fs)]);
    }
  }

  lemma SameRow()
    ensures forall a :: RowIdentityEqual(a, a)
    ensures forall a, b :: RowIdentityEqual(a, b) <==> CanonicalRow(a) == CanonicalRow(b)
  {
    forall a ensures RowIdentityEqual(a, a) { RowEqualIsCanonical(a, a); }
    forall a, b ensures RowIdentityEqual(a, b) <==> CanonicalRow(a) == CanonicalRow(b) { RowEqualIsCanonical(a, b); }
  }
}
