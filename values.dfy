/** The runtime values of the language, their equality (`Eq`) and their
    display form (`String`). */
module Values {
  import opened Bytes
  import opened Ast

  /** Index of a scope in the store of scopes (see module Scopes). */
  type ScopeId = nat

  /** A function definition as a closure refers to it. The source keeps a
      pointer to a copy of the `fnNode` made each time the literal is
      evaluated; `id` stands for that pointer's identity. */
  datatype FnDefn = FnDefn(id: nat, name: string, args: seq<string>, body: Node)

  datatype Value =
    | Empty
    | Null
    | Str(bytes: seq<byte>)
    | Int(i: int64)
    | Float(bits: FloatBits)
    | Bool(b: bool)
    | Atom(name: string)
    | List(elems: seq<Value>)
    | Object(entries: map<string, Value>)
    | Fn(defn: FnDefn, scope: ScopeId)
    | Builtin(fnName: string)

  // ---------------------------------------------------------------- Eq

  /** `v.Eq(u)`. Every variant but `Fn` (and `Builtin`) accepts `Empty` as
      its argument; `Empty` accepts every argument. Lists compare element
      by element, objects key by key; functions by definition identity. */
  function Eq(v: Value, u: Value): (r: bool)
    // values of different kinds are never equal, unless one side is `_`
    ensures r && !v.Empty? && !u.Empty? ==>
      && v.Null? == u.Null? && v.Str? == u.Str? && v.Int? == u.Int?
      && v.Float? == u.Float? && v.Bool? == u.Bool? && v.Atom? == u.Atom?
      && v.List? == u.List? && v.Object? == u.Object? && v.Fn? == u.Fn?
    decreases v, 1, 0
  {
    match v
    case Empty => true
    case Null => u.Empty? || u.Null?
    case Str(s) => u.Empty? || (u.Str? && s == u.bytes)
    case Int(n) => u.Empty? || (u.Int? && n == u.i)
    case Float(f) => u.Empty? || (u.Float? && f == u.bits)
    case Bool(b) => u.Empty? || (u.Bool? && b == u.b)
    case Atom(a) => u.Empty? || (u.Atom? && a == u.name)
    case List(a) => u.Empty? || (u.List? && |a| == |u.elems| && ElemsEqFrom(v, u.elems, 0))
    case Object(m) =>
      u.Empty? ||
      (u.Object? && |m| == |u.entries| &&
       forall key :: key in m ==> key in u.entries && Eq(m[key], u.entries[key]))
    case Fn(d, _) => u.Fn? && u.defn.id == d.id
    case Builtin(n) => u.Builtin? && u.fnName == n
  }

  /** The element loop of `ListValue.Eq`, from index `i` on; it stops at the
      first pair that is not `Eq`. */
  function ElemsEqFrom(v: Value, w: seq<Value>, i: nat): (r: bool)
    requires v.List? && |v.elems| == |w| && i <= |w|
    decreases v, 0, |w| - i
  {
    if i == |w| then true
    else if !Eq(v.elems[i], w[i]) then false
    else ElemsEqFrom(v, w, i + 1)
  }

  lemma {:induction false} ElemsEqFromIff(v: Value, w: seq<Value>, i: nat)
    requires v.List? && |v.elems| == |w| && i <= |w|
    ensures ElemsEqFrom(v, w, i) <==> forall j :: i <= j < |w| ==> Eq(v.elems[j], w[j])
    decreases |w| - i
  {
    if i < |w| {
      ElemsEqFromIff(v, w, i + 1);
    }
  }

  /** `Empty` is a wildcard on both sides, except that a closure or a builtin
      does not accept it as an argument. */
  lemma EmptyIsWildcard(v: Value)
    ensures Eq(Empty, v)
    ensures !v.Fn? && !v.Builtin? ==> Eq(v, Empty)
    ensures v.Fn? || v.Builtin? ==> !Eq(v, Empty)
  {
  }

  /** `Null` equals exactly `Empty` and `Null`, and no other value accepts
      `Null` as its argument. */
  lemma NullEquality(v: Value)
    ensures Eq(Null, v) <==> v.Empty? || v.Null?
    ensures !v.Empty? && !v.Null? ==> !Eq(v, Null)
  {
  }

  /** Lists are equal element by element, in order. */
  lemma ListEqIff(v: Value, u: Value)
    requires v.List?
    ensures Eq(v, u) <==>
      u.Empty? ||
      (u.List? && |v.elems| == |u.elems| &&
       forall i :: 0 <= i < |v.elems| ==> Eq(v.elems[i], u.elems[i]))
  {
    if u.List? && |v.elems| == |u.elems| {
      ElemsEqFromIff(v, u.elems, 0);
    }
  }

  lemma SubsetOfSameSize<T>(a: set<T>, b: set<T>)
    requires a <= b && |a| == |b|
    ensures a == b
  {
    assert |b - a| == |b| - |a|;
  }

  /** Objects are equal when they have the same keys and `Eq` values under
      each key; the sizes being equal makes the key sets equal. */
  lemma ObjectEqIff(v: Value, u: Value)
    requires v.Object?
    ensures Eq(v, u) <==>
      u.Empty? ||
      (u.Object? && v.entries.Keys == u.entries.Keys &&
       forall key :: key in v.entries ==> Eq(v.entries[key], u.entries[key]))
  {
    if u.Object? && Eq(v, u) {
      SubsetOfSameSize(v.entries.Keys, u.entries.Keys);
    }
  }

  /** `[1, 2]` is not equal to `[2, 1]`: order matters. */
  lemma ListOrderMatters()
    ensures Eq(List([Int(1), Int(2)]), List([Int(1), Int(2)]))
    ensures !Eq(List([Int(1), Int(2)]), List([Int(2), Int(1)]))
  {
    ListEqIff(List([Int(1), Int(2)]), List([Int(2), Int(1)]));
    ListEqIff(List([Int(1), Int(2)]), List([Int(1), Int(2)]));
  }

  /** Every value is equal to itself (floats are tokens here, so NaN is
      not an exception). */
  lemma {:induction false} EqReflexive(v: Value)
    ensures Eq(v, v)
    decreases v
  {
    match v
    case List(a) =>
      forall i | 0 <= i < |a| ensures Eq(a[i], a[i]) {
        EqReflexive(a[i]);
      }
      ListEqIff(v, v);
    case Object(m) =>
      forall key | key in m ensures Eq(m[key], m[key]) {
        EqReflexive(m[key]);
      }
    case _ =>
  }

  /** Values holding no function anywhere inside them. */
  predicate Comparable(v: Value)
  {
    match v
    case Fn(_, _) => false
    case Builtin(_) => false
    case List(a) => forall i :: 0 <= i < |a| ==> Comparable(a[i])
    case Object(m) => forall key :: key in m ==> Comparable(m[key])
    case _ => true
  }

  /** Equality is commutative on values without functions inside. */
  lemma {:induction false} EqSymmetric(v: Value, u: Value)
    requires Comparable(v) && Comparable(u)
    ensures Eq(v, u) == Eq(u, v)
    decreases v
  {
    match v
    case List(a) =>
      if u.List? && |a| == |u.elems| {
        forall i | 0 <= i < |a| ensures Eq(a[i], u.elems[i]) == Eq(u.elems[i], a[i]) {
          EqSymmetric(a[i], u.elems[i]);
        }
      }
      ListEqIff(v, u);
      if u.List? {
        ListEqIff(u, v);
      }
    case Object(m) =>
      if u.Object? && m.Keys == u.entries.Keys {
        forall key | key in m ensures Eq(m[key], u.entries[key]) == Eq(u.entries[key], m[key]) {
          EqSymmetric(m[key], u.entries[key]);
        }
      }
      ObjectEqIff(v, u);
      if u.Object? {
        ObjectEqIff(u, v);
      }
    case _ =>
  }

  /** With a function inside, equality is not commutative. */
  lemma EqNotSymmetric(d: FnDefn, sc: ScopeId)
    ensures Eq(Empty, Fn(d, sc)) && !Eq(Fn(d, sc), Empty)
    ensures Eq(List([Empty]), List([Fn(d, sc)])) && !Eq(List([Fn(d, sc)]), List([Empty]))
  {
    ListEqIff(List([Empty]), List([Fn(d, sc)]));
    ListEqIff(List([Fn(d, sc)]), List([Empty]));
  }

  // ---------------------------------------------------------------- String

  function DigitChar(d: nat): (c: char)
    requires d < 10
    ensures '0' <= c <= '9' && c as int - '0' as int == d
  {
    ('0' as int + d) as char
  }

  /** Decimal digits of `n`, most significant first, with no leading zero. */
  function Digits(n: nat): (s: string)
    ensures |s| > 0 && forall i :: 0 <= i < |s| ==> '0' <= s[i] <= '9'
    ensures |s| > 1 ==> s[0] != '0'
  {
    if n < 10 then [DigitChar(n)] else Digits(n / 10) + [DigitChar(n % 10)]
  }

  /** `strconv.FormatInt(n, 10)`. */
  function FormatInt(n: int): (s: string)
    ensures |s| > 0 && forall i :: 0 <= i < |s| ==> ('0' <= s[i] <= '9' || (i == 0 && s[i] == '-'))
  {
    if n < 0 then "-" + Digits(-n) else Digits(n)
  }

  /** The value of a string of decimal digits. */
  function ParseDigits(s: string): (r: nat)
    requires forall i :: 0 <= i < |s| ==> '0' <= s[i] <= '9'
  {
    if s == [] then 0
    else ParseDigits(s[..|s| - 1]) * 10 + (s[|s| - 1] as int - '0' as int)
  }

  /** The value of an optionally signed decimal numeral. */
  function ParseInt(s: string): (r: int)
    requires |s| > 0
    requires forall i :: 0 <= i < |s| ==> ('0' <= s[i] <= '9' || (i == 0 && s[i] == '-'))
  {
    if s[0] == '-' then 0 - ParseDigits(s[1..]) else ParseDigits(s)
  }

  lemma {:induction false} DigitsRoundTrip(n: nat)
    ensures ParseDigits(Digits(n)) == n
  {
    if n >= 10 {
      DigitsRoundTrip(n / 10);
      var s := Digits(n);
      assert s[..|s| - 1] == Digits(n / 10);
    }
  }

  /** Reading back the decimal form of an integer gives the integer. */
  lemma FormatIntRoundTrip(n: int)
    ensures ParseInt(FormatInt(n)) == n
  {
    if n < 0 {
      DigitsRoundTrip(-n);
      assert FormatInt(n)[1..] == Digits(-n);
    } else {
      DigitsRoundTrip(n);
    }
  }

  /** Distinct integers have distinct decimal forms, so integer object keys
      never collide. */
  lemma FormatIntInjective(m: int, n: int)
    ensures FormatInt(m) == FormatInt(n) ==> m == n
  {
    FormatIntRoundTrip(m);
    FormatIntRoundTrip(n);
  }

  /** `strings.Join(ss, sep)`. */
  function Join(ss: seq<string>, sep: string): (r: string)
  {
    if ss == [] then ""
    else if |ss| == 1 then ss[0]
    else ss[0] + sep + Join(ss[1..], sep)
  }

  /** `v.String()`. The forms of floats (`strconv.FormatFloat`), objects
      (their entry order is unspecified), functions and builtins are not
      part of this model; `other` supplies them. */
  function Display(v: Value, other: Value -> string): (s: string)
    ensures v.Empty? ==> s == "_"
    ensures v.Null? ==> s == "?"
    ensures v.Str? ==> s == "'" + Chars(v.bytes) + "'"
    ensures v.Int? ==> s == FormatInt(v.i as int)
    ensures v.Bool? ==> s == if v.b then "true" else "false"
    ensures v.Atom? ==> s == ":" + v.name
    ensures v.List? ==> |s| >= 2 && s[0] == '[' && s[|s| - 1] == ']'
    ensures v.List? ==> s == "[" + Join(seq(|v.elems|, i requires 0 <= i < |v.elems| => Display(v.elems[i], other)), ", ") + "]"
  {
    match v
    case Empty => "_"
    case Null => "?"
    case Str(bs) => "'" + Chars(bs) + "'"
    case Int(n) => FormatInt(n as int)
    case Bool(b) => if b then "true" else "false"
    case Atom(a) => ":" + a
    case List(a) => "[" + Join(seq(|a|, i requires 0 <= i < |a| => Display(a[i], other)), ", ") + "]"
    case _ => other(v)
  }

  /** The display form of an integer reads back as that integer. */
  lemma DisplayIntRoundTrip(n: int64, other: Value -> string)
    ensures ParseInt(Display(Int(n), other)) == n as int
  {
    FormatIntRoundTrip(n as int);
  }
}
