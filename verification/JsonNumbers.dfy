/** JSON values whose numbers keep their authored token, and the equality that ignores the token. */
module JsonNumbers {
  import opened Text

  datatype Value =
    | Null
    | Bool(b: bool)
    | Number(token: string)
    | Str(s: string)
    | Array(items: seq<Value>)
    | Object(members: map<string, Value>)

  type NonZeroReal = r: real | r != 0.0 witness 1.0

  /** A finite binary float: two zeros, which compare equal, and the other values. */
  datatype Float = Zero(negative: bool) | NonZero(value: NonZeroReal)

  predicate FloatEqual(f: Float, g: Float) { f == g || (f.Zero? && g.Zero?) }

  /** The number parsing and printing of `serde_json`, left open except for the laws below. */
  datatype Numerics = Numerics(
    asI64: string -> Option<int>, asU64: string -> Option<int>, asF64: string -> Option<Float>,
    printInt: int -> string, printFloat: Float -> string)
  {
    /** Printing what was parsed from a token gives a token that parses back as that same kind and value. */
    ghost predicate Lawful() {
      && (forall t :: asI64(t).Some? ==>
            var i := asI64(t).value; asI64(printInt(i)) == Some(i))
      && (forall t :: asI64(t).None? && asU64(t).Some? ==>
            var i := asU64(t).value; asI64(printInt(i)) == None && asU64(printInt(i)) == Some(i))
      && (forall t :: asI64(t).None? && asU64(t).None? && asF64(t).Some? ==>
            var f := asF64(t).value;
            asI64(printFloat(f)) == None && asU64(printFloat(f)) == None && asF64(printFloat(f)) == Some(f))
    }

    /** `FeatureIndependent::of`. */
    function Of(token: string): Independent {
      if asI64(token).Some? then Integer(asI64(token).value)
      else if asU64(token).Some? then Integer(asU64(token).value)
      else if asF64(token).Some? then Binary(asF64(token).value)
      else Unrepresentable(token)
    }

    /** The number arm of `feature_independent_value`. */
    function NormalToken(token: string): string {
      match Of(token)
      case Integer(i) => printInt(i)
      case Binary(f) => printFloat(f)
      case Unrepresentable(_) => token
    }

    /** `json_equal`. */
    predicate Equal(left: Value, right: Value)
      decreases left
    {
      match (left, right)
      case (Number(l), Number(r)) => SameNumber(Of(l), Of(r))
      case (Array(l), Array(r)) => |l| == |r| && forall i :: 0 <= i < |l| ==> Equal(l[i], r[i])
      case (Object(l), Object(r)) => |l| == |r| && forall k :: k in l ==> k in r && Equal(l[k], r[k])
      case _ => left == right
    }

    /** `feature_independent_value`. */
    function Normal(v: Value): Value {
      match v
      case Number(token) => Number(NormalToken(token))
      case Array(items) => Array(seq(|items|, i requires 0 <= i < |items| => Normal(items[i])))
      case Object(members) => Object(map k | k in members :: Normal(members[k]))
      case _ => v
    }

    /** Corresponding numbers are not zeros of opposite sign. */
    predicate ZerosAgree(left: Value, right: Value)
      decreases left
    {
      match (left, right)
      case (Number(l), Number(r)) =>
        var f, g := Of(l), Of(r);
        f.Binary? && g.Binary? && f.f.Zero? && g.f.Zero? ==> f.f.negative == g.f.negative
      case (Array(l), Array(r)) => forall i :: 0 <= i < |l| && i < |r| ==> ZerosAgree(l[i], r[i])
      case (Object(l), Object(r)) => forall k :: k in l && k in r ==> ZerosAgree(l[k], r[k])
      case _ => true
    }
  }

  /** The three number kinds of a build without arbitrary precision. */
  datatype Independent = Integer(i: int) | Binary(f: Float) | Unrepresentable(text: string)

  predicate SameNumber(a: Independent, b: Independent) {
    a == b || (a.Binary? && b.Binary? && FloatEqual(a.f, b.f))
  }

  lemma {:induction false} EqualReflexive(n: Numerics, v: Value)
    ensures n.Equal(v, v)
  {
    match v
    case Array(items) => forall i | 0 <= i < |items| { EqualReflexive(n, items[i]); }
    case Object(members) => forall k | k in members { EqualReflexive(n, members[k]); }
    case _ =>
  }

  /** Equal counts and inclusion one way make the key sets equal. */
  lemma SameKeys<V>(l: map<string, V>, r: map<string, V>)
    requires |l| == |r| && forall k :: k in l ==> k in r
    ensures l.Keys == r.Keys
  {
    assert |l.Keys| == |r.Keys| && l.Keys <= r.Keys;
    SubsetOfSameSize(l.Keys, r.Keys);
  }

  lemma {:induction false} EqualSymmetric(n: Numerics, left: Value, right: Value)
    requires n.Equal(left, right)
    ensures n.Equal(right, left)
    decreases left
  {
    match (left, right)
    case (Array(l), Array(r)) => forall i | 0 <= i < |l| { EqualSymmetric(n, l[i], r[i]); }
    case (Object(l), Object(r)) =>
      SameKeys(l, r);
      forall k | k in r ensures k in l && n.Equal(r[k], l[k]) {
        assert k in r.Keys;
        EqualSymmetric(n, l[k], r[k]);
      }
    case _ =>
  }

  lemma {:induction false} EqualTransitive(n: Numerics, a: Value, b: Value, c: Value)
    requires n.Equal(a, b) && n.Equal(b, c)
    ensures n.Equal(a, c)
    decreases a
  {
    match (a, b, c)
    case (Array(x), Array(y), Array(z)) => forall i | 0 <= i < |x| { EqualTransitive(n, x[i], y[i], z[i]); }
    case (Object(x), Object(y), Object(z)) => forall k | k in x { EqualTransitive(n, x[k], y[k], z[k]); }
    case _ =>
  }

  lemma NormalTokenLaws(n: Numerics, t: string)
    requires n.Lawful()
    ensures n.Of(n.NormalToken(t)) == n.Of(t)
    ensures n.NormalToken(n.NormalToken(t)) == n.NormalToken(t)
  {
    if n.asI64(t).Some? {
      assert n.asI64(n.printInt(n.asI64(t).value)) == n.asI64(t);
    } else if n.asU64(t).Some? {
      assert n.asU64(n.printInt(n.asU64(t).value)) == n.asU64(t);
    }
  }

  lemma {:induction false} NormalIdempotent(n: Numerics, v: Value)
    requires n.Lawful()
    ensures n.Normal(n.Normal(v)) == n.Normal(v)
  {
    match v
    case Number(t) => NormalTokenLaws(n, t);
    case Array(items) => forall i | 0 <= i < |items| { NormalIdempotent(n, items[i]); }
    case Object(members) => forall k | k in members { NormalIdempotent(n, members[k]); }
    case _ =>
  }

  lemma {:induction false} NormalIsEqual(n: Numerics, v: Value)
    requires n.Lawful()
    ensures n.Equal(n.Normal(v), v)
  {
    match v
    case Number(t) => NormalTokenLaws(n, t);
    case Array(items) => forall i | 0 <= i < |items| { NormalIsEqual(n, items[i]); }
    case Object(members) =>
      var normal := n.Normal(v).members;
      assert normal.Keys == members.Keys;
      assert |normal| == |normal.Keys| && |members| == |members.Keys|;
      forall k | k in members { NormalIsEqual(n, members[k]); }
    case _ =>
  }

  lemma SameTokenIff(n: Numerics, l: string, r: string)
    requires n.Lawful()
    ensures n.NormalToken(l) == n.NormalToken(r) <==>
      n.Equal(Number(l), Number(r)) && n.ZerosAgree(Number(l), Number(r))
  {
    NormalTokenLaws(n, l);
    NormalTokenLaws(n, r);
  }

  /** Two values share a normal form exactly when they are equal and agree on the sign of zeros. */
  lemma {:induction false} SameNormalIff(n: Numerics, left: Value, right: Value)
    requires n.Lawful()
    ensures n.Normal(left) == n.Normal(right) <==> n.Equal(left, right) && n.ZerosAgree(left, right)
    decreases left, 1
  {
    match (left, right)
    case (Number(l), Number(r)) => SameTokenIff(n, l, r);
    case (Array(l), Array(r)) => ArraysIff(n, l, r);
    case (Object(l), Object(r)) => ObjectsIff(n, l, r);
    case _ =>
  }

  lemma {:induction false} ArraysIff(n: Numerics, l: seq<Value>, r: seq<Value>)
    requires n.Lawful()
    ensures n.Normal(Array(l)) == n.Normal(Array(r)) <==>
      n.Equal(Array(l), Array(r)) && n.ZerosAgree(Array(l), Array(r))
    decreases Array(l), 0
  {
    var x, y := n.Normal(Array(l)).items, n.Normal(Array(r)).items;
    assert |x| == |l| && |y| == |r|;
    if |l| == |r| {
      forall i | 0 <= i < |l|
        ensures x[i] == y[i] <==> n.Equal(l[i], r[i]) && n.ZerosAgree(l[i], r[i])
      {
        SameNormalIff(n, l[i], r[i]);
      }
      assert x == y <==> forall i :: 0 <= i < |l| ==> x[i] == y[i];
    }
  }

  lemma {:induction false} ObjectsIff(n: Numerics, l: map<string, Value>, r: map<string, Value>)
    requires n.Lawful()
    ensures n.Normal(Object(l)) == n.Normal(Object(r)) <==>
      n.Equal(Object(l), Object(r)) && n.ZerosAgree(Object(l), Object(r))
    decreases Object(l), 0
  {
    var x, y := n.Normal(Object(l)).members, n.Normal(Object(r)).members;
    assert x.Keys == l.Keys && y.Keys == r.Keys;
    if n.Equal(Object(l), Object(r)) { SameKeys(l, r); }
    if l.Keys == r.Keys {
      assert |l| == |l.Keys| && |r| == |r.Keys|;
      forall k | k in l
        ensures x[k] == y[k] <==> n.Equal(l[k], r[k]) && n.ZerosAgree(l[k], r[k])
      {
        assert k in r.Keys;
        SameNormalIff(n, l[k], r[k]);
      }
      assert x == y <==> forall k :: k in l ==> x[k] == y[k];
    }
  }

  /** Any two tokens for the two zeros are equal as JSON but keep different normal forms. */
  lemma OppositeZeros(n: Numerics, plus: string, minus: string)
    requires n.Lawful() && n.Of(plus) == Binary(Zero(false)) && n.Of(minus) == Binary(Zero(true))
    ensures n.Equal(Number(plus), Number(minus)) && n.Normal(Number(plus)) != n.Normal(Number(minus))
  {
    SameNormalIff(n, Number(plus), Number(minus));
  }

  // ---- the laws can be met ----

  function SmallI64(t: string): Option<int> {
    var r := ParseU64(t);
    if r.Some? && r.value < 0x8000_0000_0000_0000 then Some(r.value) else None
  }

  function SmallU64(t: string): Option<int> { var r := ParseU64(t); if r.Some? then Some(r.value) else None }

  function SmallF64(t: string): Option<Float> {
    if t == "0.0" then Some(Zero(false)) else if t == "-0.0" then Some(Zero(true))
    else if t in ["12.5", "12.50"] then Some(NonZero(12.5)) else None
  }

  function SmallInt(i: int): string { if i >= 0 then Decimal(i) else "" }

  function SmallFloat(f: Float): string {
    match f case Zero(negative) => (if negative then "-0.0" else "0.0") case NonZero(_) => "12.5"
  }

  /** A small number system: unsigned integers, both zeros and two spellings of one other float. */
  const SMALL := Numerics(SmallI64, SmallU64, SmallF64, SmallInt, SmallFloat)

  lemma FloatsAreNoIntegers(f: Float)
    ensures ParseU64(SmallFloat(f)) == None
  {
    var t := SmallFloat(f);
    assert !IsDigit(match f case Zero(negative) => t[if negative then 0 else 1] case NonZero(_) => t[2]);
  }

  lemma SmallIsLawful()
    ensures SMALL.Lawful()
  {
    forall t | ParseU64(t).Some? ensures ParseU64(Decimal(ParseU64(t).value)) == ParseU64(t) {
      ParseDecimal(ParseU64(t).value);
    }
    forall t | SmallF64(t).Some?
      ensures ParseU64(SmallFloat(SmallF64(t).value)) == None && SmallF64(SmallFloat(SmallF64(t).value)) == SmallF64(t)
    {
      FloatsAreNoIntegers(SmallF64(t).value);
    }
  }

  /** In this system `12.50` and `12.5` are one number, and `0.0` and `-0.0` are the two zeros. */
  lemma SmallReads()
    ensures SMALL.Of("0.0") == Binary(Zero(false)) && SMALL.Of("-0.0") == Binary(Zero(true))
    ensures SMALL.Of("12.5") == Binary(NonZero(12.5)) && SMALL.NormalToken("12.50") == "12.5"
  {
    FloatsAreNoIntegers(Zero(false));
    FloatsAreNoIntegers(Zero(true));
    FloatsAreNoIntegers(NonZero(12.5));
    assert !IsDigit("12.50"[2]);
  }
}
