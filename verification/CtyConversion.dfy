/** Converting Go values to the type a Terraform variable expects (terraform/hcl.go). */
module CtyConversion {
  import opened Wrappers
  import opened Numerals

  datatype GoVal =
    | Nil
    | Str(s: string)
    | Float(f: real)
    | Int(i: int)
    | Bool(b: bool)
    | Dict(m: map<string, GoVal>)
    | List(l: seq<GoVal>)
    | Other

  datatype CtyType =
    | StringT
    | NumberT
    | BoolT
    | DynamicT
    | TupleT
    | ObjectT(attributes: map<string, CtyType>)
    | MapT(element: CtyType)
    | ListT(element: CtyType)
    | OtherT

  // fmt.Sprint
  type Sprint = GoVal -> string

  // goTypeToCty; None is its error.
  function TypeOf(v: GoVal): (t: Option<CtyType>)
    ensures t.Some? ==> !t.value.DynamicT?
  {
    match v
    case Int(_) => Some(NumberT)
    case Float(_) => Some(NumberT)
    case Str(_) => Some(StringT)
    case Bool(_) => Some(BoolT)
    case Dict(m) =>
      if forall k | k in m :: TypeOf(m[k]).Some? then Some(ObjectT(map k | k in m :: TypeOf(m[k]).value)) else None
    case List(l) =>
      if l == [] || TypeOf(l[0]).None? then None else Some(ListT(TypeOf(l[0]).value))
    case _ => None
  }

  function ToNumber(v: GoVal): GoVal {
    match v
    case Float(_) => v
    case Str(s) => Int(if Atoi(s).None? then 0 else Atoi(s).value)
    case Bool(b) => Int(if b then 1 else 0)
    case _ => Bool(false)
  }

  function ToBool(v: GoVal): GoVal {
    match v
    case Bool(_) => v
    case Str(s) => Bool(s == "true")
    case Float(f) => Bool(f > 0.0)
    case _ => Bool(false)
  }

  // An attribute the object type does not have is read as a string.
  function AttributeType(attributes: map<string, CtyType>, k: string): CtyType {
    if k in attributes then attributes[k] else StringT
  }

  // convertGoTypesToExpectedCtyType: recursion goes to smaller values, or from
  // the dynamic type to the type of the same value.
  function Convert(sprint: Sprint, v: GoVal, t: CtyType): GoVal
    decreases v, if t.DynamicT? then 1 else 0
  {
    match t
    case StringT => if v.Str? then v else Str(sprint(v))
    case NumberT => ToNumber(v)
    case BoolT => ToBool(v)
    case DynamicT => if TypeOf(v).None? then Nil else Convert(sprint, v, TypeOf(v).value)
    case ObjectT(attributes) =>
      if v.Dict? then Dict(map k | k in v.m :: Convert(sprint, v.m[k], AttributeType(attributes, k))) else Nil
    case MapT(element) => if v.Dict? then Dict(map k | k in v.m :: Convert(sprint, v.m[k], element)) else Nil
    case ListT(element) =>
      if v.List? then List(seq(|v.l|, i requires 0 <= i < |v.l| => Convert(sprint, v.l[i], element))) else Nil
    case _ => Nil
  }

  // The type that goes with the converted value.
  function ConvertedType(v: GoVal, t: CtyType): CtyType {
    if t.DynamicT? && TypeOf(v).Some? then TypeOf(v).value else t
  }

  /** What a scalar type makes of a value: the text of anything, numbers of numerals
      and bools, and the truth of "true" and of positive numbers. */
  lemma ScalarsExactly(sprint: Sprint, v: GoVal)
    ensures Convert(sprint, v, StringT) == match v case Str(s) => Str(s) case _ => Str(sprint(v))
    ensures Convert(sprint, v, NumberT) ==
            match v
            case Float(f) => Float(f)
            case Str(s) => Int(match Atoi(s) case Some(n) => n case None => 0)
            case Bool(b) => Int(if b then 1 else 0)
            case _ => Bool(false)
    ensures Convert(sprint, v, BoolT) ==
            match v
            case Bool(b) => Bool(b)
            case Str(s) => Bool(s == "true")
            case Float(f) => Bool(f > 0.0)
            case _ => Bool(false)
  {
  }

  /** What a composite type makes of a value: maps keep their keys and lists their
      length, and every part is converted to the type expected of it. */
  lemma CompositesExactly(sprint: Sprint, v: GoVal, attributes: map<string, CtyType>, element: CtyType)
    ensures var w := Convert(sprint, v, ObjectT(attributes));
            if v.Dict? then
              && w.Dict? && w.m.Keys == v.m.Keys
              && forall k | k in v.m :: w.m[k] == Convert(sprint, v.m[k], if k in attributes then attributes[k] else StringT)
            else w.Nil?
    ensures var w := Convert(sprint, v, MapT(element));
            if v.Dict? then w.Dict? && w.m.Keys == v.m.Keys && forall k | k in v.m :: w.m[k] == Convert(sprint, v.m[k], element)
            else w.Nil?
    ensures var w := Convert(sprint, v, ListT(element));
            if v.List? then w.List? && |w.l| == |v.l| && forall i | 0 <= i < |v.l| :: w.l[i] == Convert(sprint, v.l[i], element)
            else w.Nil?
    ensures Convert(sprint, v, DynamicT) == match TypeOf(v) case Some(t) => Convert(sprint, v, t) case None => Nil
  {
  }

  /** The type that goes with a converted value is the expected one, or under the
      dynamic type that of the value, if it has one. */
  lemma ReturnedType(v: GoVal, t: CtyType)
    ensures !t.DynamicT? ==> ConvertedType(v, t) == t
    ensures t.DynamicT? ==> if TypeOf(v).Some? then Some(ConvertedType(v, t)) == TypeOf(v) else ConvertedType(v, t).DynamicT?
  {
  }

  // ----- which values are kept -----

  // The value already has the type.
  ghost predicate Fits(v: GoVal, t: CtyType)
    decreases v, if t.DynamicT? then 1 else 0
  {
    match t
    case StringT => v.Str?
    case NumberT => v.Float?
    case BoolT => v.Bool?
    case DynamicT => if TypeOf(v).None? then v.Nil? else Fits(v, TypeOf(v).value)
    case ObjectT(attributes) => v.Nil? || (v.Dict? && forall k | k in v.m :: Fits(v.m[k], AttributeType(attributes, k)))
    case MapT(element) => v.Nil? || (v.Dict? && forall k | k in v.m :: Fits(v.m[k], element))
    case ListT(element) => v.Nil? || (v.List? && forall i | 0 <= i < |v.l| :: Fits(v.l[i], element))
    case _ => v.Nil?
  }

  /** Conversion keeps a value exactly when the value fits the type. */
  lemma {:induction false} ConvertKeepsExactly(sprint: Sprint, v: GoVal, t: CtyType)
    ensures Convert(sprint, v, t) == v <==> Fits(v, t)
    decreases v, if t.DynamicT? then 1 else 0
  {
    match t
    case DynamicT =>
      if TypeOf(v).Some? {
        ConvertKeepsExactly(sprint, v, TypeOf(v).value);
      }
    case ObjectT(attributes) =>
      if v.Dict? {
        forall k | k in v.m {
          ConvertKeepsExactly(sprint, v.m[k], AttributeType(attributes, k));
        }
        DictKept(v, Convert(sprint, v, t));
      }
    case MapT(element) =>
      if v.Dict? {
        forall k | k in v.m {
          ConvertKeepsExactly(sprint, v.m[k], element);
        }
        DictKept(v, Convert(sprint, v, t));
      }
    case ListT(element) =>
      if v.List? {
        forall i | 0 <= i < |v.l| {
          ConvertKeepsExactly(sprint, v.l[i], element);
        }
        ListKept(v, Convert(sprint, v, t));
      }
    case _ =>
  }

  lemma DictKept(v: GoVal, w: GoVal)
    requires v.Dict? && w.Dict? && v.m.Keys == w.m.Keys
    ensures v == w <==> forall k | k in v.m :: w.m[k] == v.m[k]
  {
    if forall k | k in v.m :: w.m[k] == v.m[k] {
      assert v.m == w.m;
    }
  }

  lemma ListKept(v: GoVal, w: GoVal)
    requires v.List? && w.List? && |v.l| == |w.l|
    ensures v == w <==> forall i | 0 <= i < |v.l| :: w.l[i] == v.l[i]
  {
    if forall i | 0 <= i < |v.l| :: w.l[i] == v.l[i] {
      assert v.l == w.l;
    }
  }

  // Built from strings, floats, bools, maps and non-empty lists of one type.
  ghost predicate Regular(v: GoVal) {
    match v
    case Str(_) => true
    case Float(_) => true
    case Bool(_) => true
    case Dict(m) => forall k | k in m :: Regular(m[k])
    case List(l) => l != [] && forall i | 0 <= i < |l| :: Regular(l[i]) && TypeOf(l[i]) == TypeOf(l[0])
    case _ => false
  }

  lemma {:induction false} RegularFits(v: GoVal)
    requires Regular(v)
    ensures TypeOf(v).Some? && Fits(v, TypeOf(v).value)
  {
    match v
    case Dict(m) =>
      forall k | k in m {
        RegularFits(m[k]);
      }
    case List(l) =>
      forall i | 0 <= i < |l| {
        RegularFits(l[i]);
      }
    case _ =>
  }

  /** Under the dynamic type, conversion is the identity on every regular value. */
  lemma {:induction false} DynamicKeepsRegular(sprint: Sprint, v: GoVal)
    requires Regular(v)
    ensures Convert(sprint, v, DynamicT) == v
  {
    RegularFits(v);
    ConvertKeepsExactly(sprint, v, DynamicT);
  }

  // ----- converting twice -----

  // The type a value has once it was converted to its own: an int becomes false.
  function TypeAfter(v: GoVal): CtyType
    requires TypeOf(v).Some?
  {
    match v
    case Int(_) => BoolT
    case Dict(m) => ObjectT(map k | k in m :: TypeAfter(m[k]))
    case List(l) => ListT(TypeAfter(l[0]))
    case _ => TypeOf(v).value
  }

  lemma {:induction false} TypeAfterOwn(sprint: Sprint, v: GoVal)
    requires TypeOf(v).Some?
    ensures TypeOf(Convert(sprint, v, TypeOf(v).value)) == Some(TypeAfter(v))
  {
    match v
    case Dict(m) =>
      forall k | k in m ensures TypeOf(Convert(sprint, m[k], TypeOf(m[k]).value)) == Some(TypeAfter(m[k])) {
        TypeAfterOwn(sprint, m[k]);
      }
      DictTypeAfter(sprint, m);
    case List(l) => TypeAfterOwn(sprint, l[0]);
    case _ =>
  }

  lemma DictTypeAfter(sprint: Sprint, m: map<string, GoVal>)
    requires TypeOf(Dict(m)).Some?
    requires forall k | k in m :: TypeOf(Convert(sprint, m[k], TypeOf(m[k]).value)) == Some(TypeAfter(m[k]))
    ensures TypeOf(Convert(sprint, Dict(m), TypeOf(Dict(m)).value)) == Some(TypeAfter(Dict(m)))
  {
    var t, once := TypeOf(Dict(m)).value, Convert(sprint, Dict(m), TypeOf(Dict(m)).value);
    assert forall k | k in m :: once.m[k] == Convert(sprint, m[k], TypeOf(m[k]).value);
    assert TypeOf(once).value.attributes == (map k | k in m :: TypeAfter(m[k]));
  }

  // Converted to a type `t` the value fits the type `u`: an int was expected to
  // stay a number exactly where `u` says bool.
  ghost predicate Lands(v: GoVal, t: CtyType, u: CtyType)
    decreases v
  {
    match t
    case StringT => u.StringT?
    case NumberT => if u.BoolT? then !v.Float? && !v.Str? && !v.Bool? else u.NumberT? && v.Float?
    case BoolT => u.BoolT?
    case ObjectT(a) =>
      u.ObjectT? &&
      (v.Dict? ==> forall k | k in v.m :: Lands(v.m[k], AttributeType(a, k), AttributeType(u.attributes, k)))
    case ListT(e) => u.ListT? && (v.List? ==> forall i | 0 <= i < |v.l| :: Lands(v.l[i], e, u.element))
    case _ => false
  }

  // `t` is the type of some value and `u` what becomes of it.
  ghost predicate TypesOf(t: CtyType, u: CtyType)
    decreases t
  {
    match t
    case StringT => u.StringT?
    case NumberT => u.NumberT? || u.BoolT?
    case BoolT => u.BoolT?
    case ObjectT(a) => u.ObjectT? && u.attributes.Keys == a.Keys && forall k | k in a :: TypesOf(a[k], u.attributes[k])
    case ListT(e) => u.ListT? && TypesOf(e, u.element)
    case _ => false
  }

  lemma {:induction false} OwnTypes(v: GoVal)
    requires TypeOf(v).Some?
    ensures TypesOf(TypeOf(v).value, TypeAfter(v))
  {
    match v
    case Dict(m) =>
      forall k | k in m {
        OwnTypes(m[k]);
      }
    case List(l) => OwnTypes(l[0]);
    case _ =>
  }

  lemma {:induction false} LandsExactly(sprint: Sprint, v: GoVal, t: CtyType, u: CtyType)
    requires TypesOf(t, u)
    ensures Fits(Convert(sprint, v, t), u) <==> Lands(v, t, u)
    decreases v
  {
    match t
    case ObjectT(a) =>
      if v.Dict? {
        forall k | k in v.m
          ensures Fits(Convert(sprint, v.m[k], AttributeType(a, k)), AttributeType(u.attributes, k))
                  <==> Lands(v.m[k], AttributeType(a, k), AttributeType(u.attributes, k))
        {
          LandsExactly(sprint, v.m[k], AttributeType(a, k), AttributeType(u.attributes, k));
        }
      }
    case ListT(e) =>
      if v.List? {
        forall i | 0 <= i < |v.l| ensures Fits(Convert(sprint, v.l[i], e), u.element) <==> Lands(v.l[i], e, u.element) {
          LandsExactly(sprint, v.l[i], e, u.element);
        }
        assert forall i | 0 <= i < |v.l| :: Convert(sprint, v, t).l[i] == Convert(sprint, v.l[i], e);
      }
    case _ =>
  }

  // Wherever a number is expected there is a float, and wherever the type is
  // dynamic the value lands in the type that its own type becomes: then all items
  // of a list go the way of its first.
  ghost predicate Stable(v: GoVal, t: CtyType)
    decreases v, if t.DynamicT? then 1 else 0
  {
    match t
    case NumberT => v.Float?
    case DynamicT => TypeOf(v).Some? ==> Lands(v, TypeOf(v).value, TypeAfter(v))
    case ObjectT(attributes) => v.Dict? ==> forall k | k in v.m :: Stable(v.m[k], AttributeType(attributes, k))
    case MapT(element) => v.Dict? ==> forall k | k in v.m :: Stable(v.m[k], element)
    case ListT(element) => v.List? ==> forall i | 0 <= i < |v.l| :: Stable(v.l[i], element)
    case _ => true
  }

  lemma DynamicTwiceExactly(sprint: Sprint, v: GoVal)
    ensures var once := Convert(sprint, v, DynamicT);
            Convert(sprint, once, DynamicT) == once <==> Stable(v, DynamicT)
  {
    if TypeOf(v).Some? {
      var once := Convert(sprint, v, DynamicT);
      TypeAfterOwn(sprint, v);
      OwnTypes(v);
      LandsExactly(sprint, v, TypeOf(v).value, TypeAfter(v));
      ConvertKeepsExactly(sprint, once, DynamicT);
    }
  }

  /** For every value and every type, converting twice is converting once exactly
      when the value is stable: a number expected and not given as a float becomes
      an int or a bool, which a second pass changes again. */
  lemma {:induction false} ConvertTwiceExactly(sprint: Sprint, v: GoVal, t: CtyType)
    ensures var once := Convert(sprint, v, t);
            Convert(sprint, once, t) == once <==> Stable(v, t)
    decreases v
  {
    var once := Convert(sprint, v, t);
    var twice := Convert(sprint, once, t);
    match t
    case DynamicT => DynamicTwiceExactly(sprint, v);
    case ObjectT(attributes) =>
      if v.Dict? {
        forall k | k in v.m
          ensures twice.m[k] == once.m[k] <==> Stable(v.m[k], AttributeType(attributes, k))
        {
          ConvertTwiceExactly(sprint, v.m[k], AttributeType(attributes, k));
        }
        DictKept(once, twice);
      }
    case MapT(element) =>
      if v.Dict? {
        forall k | k in v.m
          ensures twice.m[k] == once.m[k] <==> Stable(v.m[k], element)
        {
          ConvertTwiceExactly(sprint, v.m[k], element);
        }
        DictKept(once, twice);
      }
    case ListT(element) =>
      if v.List? {
        forall i | 0 <= i < |v.l|
          ensures twice.l[i] == once.l[i] <==> Stable(v.l[i], element)
        {
          ConvertTwiceExactly(sprint, v.l[i], element);
        }
        ListKept(once, twice);
      }
    case _ =>
  }

  // ----- the returned type -----

  // A value of the type, as far as it says: null is one of every composite type,
  // and a dynamic part says nothing. Strictly an object has all the attributes of
  // its type and no others.
  ghost predicate Conforms(v: GoVal, t: CtyType, strict: bool)
    decreases v
  {
    match t
    case StringT => v.Str?
    case NumberT => v.Float? || v.Int?
    case BoolT => v.Bool?
    case ObjectT(attributes) =>
      v.Nil? || (v.Dict? && (strict ==> v.m.Keys == attributes.Keys) &&
                 forall k | k in v.m :: Conforms(v.m[k], AttributeType(attributes, k), strict))
    case MapT(element) => v.Nil? || (v.Dict? && forall k | k in v.m :: Conforms(v.m[k], element, strict))
    case ListT(element) => v.Nil? || (v.List? && forall i | 0 <= i < |v.l| :: Conforms(v.l[i], element, strict))
    case DynamicT => true
    case _ => v.Nil?
  }

  // Wherever an object is expected, a map has its attributes and no others.
  ghost predicate AttributesMatch(v: GoVal, t: CtyType)
    decreases v
  {
    match t
    case ObjectT(attributes) =>
      v.Dict? ==> v.m.Keys == attributes.Keys && forall k | k in v.m :: AttributesMatch(v.m[k], AttributeType(attributes, k))
    case MapT(element) => v.Dict? ==> forall k | k in v.m :: AttributesMatch(v.m[k], element)
    case ListT(element) => v.List? ==> forall i | 0 <= i < |v.l| :: AttributesMatch(v.l[i], element)
    case _ => true
  }

  // Wherever a number is expected there is a float, a string or a bool.
  ghost predicate NumbersReadable(v: GoVal, t: CtyType)
    decreases v
  {
    match t
    case NumberT => v.Float? || v.Str? || v.Bool?
    case ObjectT(attributes) => v.Dict? ==> forall k | k in v.m :: NumbersReadable(v.m[k], AttributeType(attributes, k))
    case MapT(element) => v.Dict? ==> forall k | k in v.m :: NumbersReadable(v.m[k], element)
    case ListT(element) => v.List? ==> forall i | 0 <= i < |v.l| :: NumbersReadable(v.l[i], element)
    case _ => true
  }

  /** The converted value is of the type returned with it exactly when every number
      that type expects can be read: an int, null or composite value becomes false.
      For an object it is so strictly when, besides, the attributes are those expected:
      conversion neither drops nor adds any. */
  lemma ConvertConformsExactly(sprint: Sprint, v: GoVal, t: CtyType)
    ensures Conforms(Convert(sprint, v, t), ConvertedType(v, t), false) <==> NumbersReadable(v, ConvertedType(v, t))
    ensures Conforms(Convert(sprint, v, t), ConvertedType(v, t), true) <==>
              NumbersReadable(v, ConvertedType(v, t)) && AttributesMatch(v, ConvertedType(v, t))
  {
    if !(t.DynamicT? && TypeOf(v).None?) {
      ConformsInto(sprint, v, ConvertedType(v, t), false);
      ConformsInto(sprint, v, ConvertedType(v, t), true);
    }
  }

  lemma {:induction false} ConformsInto(sprint: Sprint, v: GoVal, t: CtyType, strict: bool)
    ensures Conforms(Convert(sprint, v, t), t, strict) <==> NumbersReadable(v, t) && (strict ==> AttributesMatch(v, t))
    decreases v
  {
    match t
    case ObjectT(attributes) =>
      if v.Dict? {
        forall k | k in v.m {
          ConformsInto(sprint, v.m[k], AttributeType(attributes, k), strict);
        }
        assert forall k | k in v.m :: Convert(sprint, v, t).m[k] == Convert(sprint, v.m[k], AttributeType(attributes, k));
        assert Convert(sprint, v, t).m.Keys == v.m.Keys;
      }
    case MapT(element) =>
      if v.Dict? {
        forall k | k in v.m {
          ConformsInto(sprint, v.m[k], element, strict);
        }
        assert forall k | k in v.m :: Convert(sprint, v, t).m[k] == Convert(sprint, v.m[k], element);
      }
    case ListT(element) =>
      if v.List? {
        forall i | 0 <= i < |v.l| {
          ConformsInto(sprint, v.l[i], element, strict);
        }
        assert forall i | 0 <= i < |v.l| :: Convert(sprint, v, t).l[i] == Convert(sprint, v.l[i], element);
      }
    case _ =>
  }

  /** A numeric string becomes an int, and the int becomes false. */
  lemma NumeralsAreLost(sprint: Sprint, n: nat)
    requires n <= MAX_INT
    ensures Convert(sprint, Str(Numeral(n)), NumberT) == Int(n)
    ensures Convert(sprint, Int(n), NumberT) == Bool(false)
    ensures Convert(sprint, Int(n), DynamicT) == Bool(false)
  {
    AtoiNumeral(n);
  }
}
