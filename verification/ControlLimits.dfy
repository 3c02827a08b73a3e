/** Safety limits of governed device writes (apps/devices/control_governance.py): the limits
    of the template, the commissioning and the customer policy are combined, and a value is
    validated against the combination. */
module ControlLimits {

  import opened Common

  /** A JSON scalar: of a limit, of an allowed-value list, of a requested or current value. */
  datatype Scalar = Num(number: real) | Truth(truth: bool) | Word(word: string) | Nil

  /** What a decimal text denotes, if it denotes a number. */
  type Parser = string -> Option<real>

  function NumberOf(parse: Parser, v: Scalar): Option<real> {
    match v
    case Num(r) => Some(r)
    case Word(w) => parse(w)
    case _ => None
  }

  /** True and false are the same members of an allowed-value set as 1 and 0. */
  function Token(v: Scalar): Scalar {
    if v.Truth? then Num(if v.truth then 1.0 else 0.0) else v
  }

  /** Two scalars are the same member if and only if they are equal, or one is true or false and the
      other the number 1 or 0. */
  lemma TokenExactly(v: Scalar, w: Scalar)
    ensures Token(v) == Token(w) <==>
            || v == w
            || (v == Truth(true) && w == Num(1.0)) || (v == Num(1.0) && w == Truth(true))
            || (v == Truth(false) && w == Num(0.0)) || (v == Num(0.0) && w == Truth(false))
  {
  }

  function Tokens(values: set<Scalar>): set<Scalar> {
    set v | v in values :: Token(v)
  }

  datatype Field = MinField | MaxField | DeltaField | RateField | CooldownField

  datatype Source = Source(
    min: Option<Scalar>, max: Option<Scalar>, allowed: Option<set<Scalar>>,
    maxDelta: Option<Scalar>, maxRate: Option<Scalar>, cooldown: Option<Scalar>)

  function At(s: Source, f: Field): Option<Scalar> {
    match f
    case MinField => s.min case MaxField => s.max case DeltaField => s.maxDelta
    case RateField => s.maxRate case CooldownField => s.cooldown
  }

  function Given(sources: seq<Source>, f: Field): seq<Scalar> {
    if sources == [] then []
    else (if At(sources[0], f).Some? then [At(sources[0], f).value] else []) + Given(sources[1..], f)
  }

  function Numbers(parse: Parser, vs: seq<Scalar>): Option<seq<real>> {
    if vs == [] then Some([])
    else
      var n := NumberOf(parse, vs[0]);
      var rest := Numbers(parse, vs[1..]);
      if n.Some? && rest.Some? then Some([n.value] + rest.value) else None
  }

  function Least(xs: seq<real>): real
    requires xs != []
  {
    if |xs| == 1 then xs[0] else var rest := Least(xs[1..]); if xs[0] <= rest then xs[0] else rest
  }

  function Greatest(xs: seq<real>): real
    requires xs != []
  {
    if |xs| == 1 then xs[0] else var rest := Greatest(xs[1..]); if xs[0] >= rest then xs[0] else rest
  }

  datatype Refusal =
    | NotNumeric | NoOverlap | NotInteger | NotBoolean | NotText | UnsupportedType
    | NotAllowed | BelowMinimum | AboveMaximum | DeltaExceeded | CoolingDown

  /** One numeric field of the combination: the largest minimum, the smallest of the others. */
  function Combined(parse: Parser, sources: seq<Source>, f: Field): Result<Option<real>, Refusal> {
    var vs := Given(sources, f);
    if vs == [] then Ok(None)
    else match Numbers(parse, vs)
      case None => Err(NotNumeric)
      case Some(xs) => if xs == [] then Ok(None) else Ok(Some(if f.MinField? then Greatest(xs) else Least(xs)))
  }

  function AllowedSets(sources: seq<Source>): seq<set<Scalar>> {
    if sources == [] then []
    else (if sources[0].allowed.Some? then [Tokens(sources[0].allowed.value)] else []) + AllowedSets(sources[1..])
  }

  function Intersection(sets: seq<set<Scalar>>): set<Scalar>
    requires sets != []
  {
    if |sets| == 1 then sets[0] else sets[0] * Intersection(sets[1..])
  }

  datatype Limits = Limits(
    min: Option<real>, max: Option<real>, allowed: Option<set<Scalar>>,
    maxDelta: Option<real>, maxRate: Option<real>, cooldown: Option<real>)

  /** _intersect_limits */
  function Intersect(parse: Parser, sources: seq<Source>): Result<Limits, Refusal> {
    var min := Combined(parse, sources, MinField);
    if min.Err? then Err(min.error) else
    var max := Combined(parse, sources, MaxField);
    if max.Err? then Err(max.error) else
    if min.value.Some? && max.value.Some? && min.value.value > max.value.value then Err(NoOverlap) else
    var sets := AllowedSets(sources);
    if sets != [] && Intersection(sets) == {} then Err(NoOverlap) else
    var allowed := if sets == [] then None else Some(Intersection(sets));
    var delta := Combined(parse, sources, DeltaField);
    if delta.Err? then Err(delta.error) else
    var rate := Combined(parse, sources, RateField);
    if rate.Err? then Err(rate.error) else
    var cooldown := Combined(parse, sources, CooldownField);
    if cooldown.Err? then Err(cooldown.error) else
    Ok(Limits(min.value, max.value, allowed, delta.value, rate.value, cooldown.value))
  }

  /** The data types a control definition may have. */
  datatype Kind = IntegerKind | DecimalKind | BooleanKind | TextKind | OtherKind

  function Normalized(parse: Parser, kind: Kind, v: Scalar): Result<Scalar, Refusal> {
    match kind
    case IntegerKind =>
      var n := NumberOf(parse, v);
      if n.None? then Err(NotNumeric)
      else if n.value != n.value.Floor as real then Err(NotInteger) else Ok(Num(n.value))
    case DecimalKind =>
      var n := NumberOf(parse, v);
      if n.None? then Err(NotNumeric) else Ok(Num(n.value))
    case BooleanKind => if v.Truth? then Ok(v) else Err(NotBoolean)
    case TextKind => if v.Word? then Ok(v) else Err(NotText)
    case OtherKind => Err(UnsupportedType)
  }

  function Distance(a: real, b: real): (d: real)
    ensures d >= 0.0 && (d == a - b || d == b - a)
  {
    if a >= b then a - b else b - a
  }

  /** The limit checks of validate_control_value on a normalised value, before the cooldown. */
  function LimitFault(parse: Parser, limits: Limits, v: Scalar, current: Option<Scalar>): Option<Refusal> {
    var n := NumberOf(parse, v);
    if limits.allowed.Some? && Token(v) !in limits.allowed.value then Some(NotAllowed) else
    if limits.min.Some? && n.None? then Some(NotNumeric) else
    if limits.min.Some? && n.value < limits.min.value then Some(BelowMinimum) else
    if limits.max.Some? && n.None? then Some(NotNumeric) else
    if limits.max.Some? && n.value > limits.max.value then Some(AboveMaximum) else
    if current.Some? && limits.maxDelta.Some? then
      var was := NumberOf(parse, current.value);
      if n.None? || was.None? then Some(NotNumeric)
      else if Distance(n.value, was.value) > limits.maxDelta.value then Some(DeltaExceeded) else None
    else None
  }

  /** The cooldown refuses: age is the age of the device key's latest published command. */
  predicate Cooling(cooldown: Option<real>, age: Option<real>) {
    cooldown.Some? && cooldown.value != 0.0 && age.Some? && age.value < cooldown.value
  }

  /** effective_control_envelope's limits and validate_control_value in one: the normalised
      and the encoded value. */
  function Validated(
    parse: Parser, sources: seq<Source>, kind: Kind, v: Scalar, current: Option<Scalar>, age: Option<real>,
    scale: Scalar, offset: Scalar): Result<(Scalar, real), Refusal>
  {
    var limits := Intersect(parse, sources);
    if limits.Err? then Err(limits.error) else
    var normalized := Normalized(parse, kind, v);
    if normalized.Err? then Err(normalized.error) else
    var fault := LimitFault(parse, limits.value, normalized.value, current);
    if fault.Some? then Err(fault.value) else
    if Cooling(limits.value.cooldown, age) then Err(CoolingDown) else
    var n := NumberOf(parse, normalized.value);
    var s := NumberOf(parse, scale);
    var o := NumberOf(parse, offset);
    if n.None? || s.None? || o.None? then Err(NotNumeric) else Ok((normalized.value, n.value * s.value + o.value))
  }

  // ------------------------------------------------------------------- lemmas

  lemma InHeadOrTail<T>(xs: seq<T>)
    requires xs != []
    ensures xs[0] in xs
    ensures forall x :: x in xs ==> x == xs[0] || x in xs[1..]
    ensures forall x :: x in xs[1..] ==> x in xs
  {
  }

  lemma {:induction false} LeastExactly(xs: seq<real>, x: real)
    requires xs != []
    ensures x <= Least(xs) <==> forall y :: y in xs ==> x <= y
  {
    InHeadOrTail(xs);
    if |xs| > 1 {
      LeastExactly(xs[1..], x);
    }
  }

  lemma {:induction false} GreatestExactly(xs: seq<real>, x: real)
    requires xs != []
    ensures Greatest(xs) <= x <==> forall y :: y in xs ==> y <= x
  {
    InHeadOrTail(xs);
    if |xs| > 1 {
      GreatestExactly(xs[1..], x);
    }
  }

  /** A number passes one source's bound in a field, if the source sets it. */
  predicate Passes(parse: Parser, s: Source, f: Field, x: real) {
    At(s, f).Some? ==>
      var b := NumberOf(parse, At(s, f).value);
      b.Some? && if f.MinField? then b.value <= x else x <= b.value
  }

  predicate WellTyped(parse: Parser, s: Source, f: Field) {
    At(s, f).Some? ==> NumberOf(parse, At(s, f).value).Some?
  }

  lemma {:induction false} NumbersExactly(parse: Parser, sources: seq<Source>, f: Field, x: real)
    ensures Numbers(parse, Given(sources, f)).Some? <==> forall s :: s in sources ==> WellTyped(parse, s, f)
    ensures Numbers(parse, Given(sources, f)).Some? ==>
              var xs := Numbers(parse, Given(sources, f)).value;
              && |xs| == |Given(sources, f)|
              && ((forall y :: y in xs ==> if f.MinField? then y <= x else x <= y)
                  <==> forall s :: s in sources ==> Passes(parse, s, f, x))
  {
    if sources != [] {
      NumbersExactly(parse, sources[1..], f, x);
      InHeadOrTail(sources);
      var given := Given(sources, f);
      if At(sources[0], f).Some? {
        assert given[0] == At(sources[0], f).value && given[1..] == Given(sources[1..], f);
        if Numbers(parse, given).Some? {
          var xs := Numbers(parse, given).value;
          InHeadOrTail(xs);
          assert xs[1..] == Numbers(parse, given[1..]).value;
        }
      } else {
        assert given == Given(sources[1..], f);
      }
    }
  }

  /** One combined field: it exists exactly when some source sets it, it is refused exactly
      when some source sets it to something else than a number, and a number passes it
      exactly when it passes every source. */
  lemma CombinedExactly(parse: Parser, sources: seq<Source>, f: Field, x: real)
    ensures Combined(parse, sources, f).Ok? <==> forall s :: s in sources ==> WellTyped(parse, s, f)
    ensures Combined(parse, sources, f).Ok? ==>
              var b := Combined(parse, sources, f).value;
              (b.Some? ==> if f.MinField? then b.value <= x else x <= b.value)
              <==> forall s :: s in sources ==> Passes(parse, s, f, x)
  {
    NumbersExactly(parse, sources, f, x);
    var xs := Numbers(parse, Given(sources, f));
    if xs.Some? && xs.value != [] {
      LeastExactly(xs.value, x);
      GreatestExactly(xs.value, x);
    }
  }

  lemma {:induction false} GivenExactly(sources: seq<Source>, f: Field)
    ensures Given(sources, f) == [] <==> forall s :: s in sources ==> At(s, f).None?
  {
    if sources != [] {
      GivenExactly(sources[1..], f);
      InHeadOrTail(sources);
    }
  }

  lemma CombinedAbsent(parse: Parser, sources: seq<Source>, f: Field)
    requires Combined(parse, sources, f).Ok?
    ensures Combined(parse, sources, f).value.None? <==> forall s :: s in sources ==> At(s, f).None?
  {
    GivenExactly(sources, f);
    NumbersExactly(parse, sources, f, 0.0);
  }

  predicate Allows(s: Source, t: Scalar) {
    s.allowed.Some? ==> t in Tokens(s.allowed.value)
  }

  lemma {:induction false} IntersectionMember(sets: seq<set<Scalar>>, t: Scalar)
    requires sets != []
    ensures t in Intersection(sets) <==> forall s :: s in sets ==> t in s
  {
    InHeadOrTail(sets);
    if |sets| > 1 {
      IntersectionMember(sets[1..], t);
    }
  }

  lemma {:induction false} AllowedSetsExactly(sources: seq<Source>, t: Scalar)
    ensures (forall a :: a in AllowedSets(sources) ==> t in a) <==> forall s :: s in sources ==> Allows(s, t)
  {
    if sources != [] {
      AllowedSetsExactly(sources[1..], t);
      InHeadOrTail(sources);
      var sets := AllowedSets(sources);
      if sources[0].allowed.Some? {
        InHeadOrTail(sets);
        assert sets[1..] == AllowedSets(sources[1..]);
      } else {
        assert sets == AllowedSets(sources[1..]);
      }
    }
  }

  // ------------------------------------------------------------- main results

  predicate FullyTyped(parse: Parser, s: Source) {
    && WellTyped(parse, s, MinField) && WellTyped(parse, s, MaxField) && WellTyped(parse, s, DeltaField)
    && WellTyped(parse, s, RateField) && WellTyped(parse, s, CooldownField)
  }

  /** If the source bounds the field, there is a number and it passes. */
  predicate FieldAccepts(parse: Parser, s: Source, f: Field, n: Option<real>) {
    At(s, f).Some? ==> n.Some? && Passes(parse, s, f, n.value)
  }

  /** How far the value is from the device's current one, if both are numbers. */
  function Change(parse: Parser, v: Scalar, current: Option<Scalar>): Option<real> {
    if current.None? || NumberOf(parse, v).None? || NumberOf(parse, current.value).None? then None
    else Some(Distance(NumberOf(parse, v).value, NumberOf(parse, current.value).value))
  }

  /** What one source asks of a normalised value, stated without combining anything. */
  predicate SourceAccepts(parse: Parser, s: Source, v: Scalar, current: Option<Scalar>) {
    && FullyTyped(parse, s) && Allows(s, Token(v))
    && FieldAccepts(parse, s, MinField, NumberOf(parse, v)) && FieldAccepts(parse, s, MaxField, NumberOf(parse, v))
    && (current.Some? ==> FieldAccepts(parse, s, DeltaField, Change(parse, v, current)))
  }

  /** The combined limits exist and accept the value. */
  predicate CombinationAccepts(parse: Parser, sources: seq<Source>, v: Scalar, current: Option<Scalar>) {
    var limits := Intersect(parse, sources);
    limits.Ok? && LimitFault(parse, limits.value, v, current).None?
  }

  lemma AllowedExactly(sources: seq<Source>, t: Scalar)
    ensures (AllowedSets(sources) == [] || t in Intersection(AllowedSets(sources)))
            <==> forall s :: s in sources ==> Allows(s, t)
  {
    AllowedSetsExactly(sources, t);
    if AllowedSets(sources) != [] {
      IntersectionMember(AllowedSets(sources), t);
    }
  }

  predicate AllCombine(parse: Parser, sources: seq<Source>) {
    && Combined(parse, sources, MinField).Ok? && Combined(parse, sources, MaxField).Ok?
    && Combined(parse, sources, DeltaField).Ok? && Combined(parse, sources, RateField).Ok?
    && Combined(parse, sources, CooldownField).Ok?
  }

  lemma AllWellTyped(parse: Parser, sources: seq<Source>)
    ensures AllCombine(parse, sources) <==> forall s :: s in sources ==> FullyTyped(parse, s)
  {
    hide Combined, WellTyped;
    CombinedExactly(parse, sources, MinField, 0.0);
    CombinedExactly(parse, sources, MaxField, 0.0);
    CombinedExactly(parse, sources, DeltaField, 0.0);
    CombinedExactly(parse, sources, RateField, 0.0);
    CombinedExactly(parse, sources, CooldownField, 0.0);
  }

  /** The numbers that pass a field's combination, and when the combination sets a bound. */
  lemma FieldExactly(parse: Parser, sources: seq<Source>, f: Field, n: Option<real>)
    requires Combined(parse, sources, f).Ok?
    ensures var b := Combined(parse, sources, f).value;
            (b.Some? ==> n.Some? && if f.MinField? then b.value <= n.value else n.value <= b.value)
            <==> forall s :: s in sources ==> FieldAccepts(parse, s, f, n)
  {
    hide Combined, NumberOf;
    CombinedAbsent(parse, sources, f);
    if n.Some? {
      CombinedExactly(parse, sources, f, n.value);
    }
  }

  /** Envelope intersection: any number of sources combined accept a value exactly when every
      one of them accepts it; a combination that cannot be formed counts as refusing. */
  lemma CombinationExactly(parse: Parser, sources: seq<Source>, v: Scalar, current: Option<Scalar>)
    ensures CombinationAccepts(parse, sources, v, current)
            <==> forall s :: s in sources ==> SourceAccepts(parse, s, v, current)
  {
    hide Combined, AllowedSets, Intersection, NumberOf, Token, Tokens, FieldAccepts, Allows, FullyTyped;
    AllWellTyped(parse, sources);
    AllowedExactly(sources, Token(v));
    if AllCombine(parse, sources) {
      FieldExactly(parse, sources, MinField, NumberOf(parse, v));
      FieldExactly(parse, sources, MaxField, NumberOf(parse, v));
      FieldExactly(parse, sources, DeltaField, Change(parse, v, current));
    }
  }

  /** So a further source never lets a new value through. */
  lemma MoreSourcesNeverAdmit(parse: Parser, sources: seq<Source>, more: seq<Source>, v: Scalar, current: Option<Scalar>)
    requires CombinationAccepts(parse, sources + more, v, current)
    ensures CombinationAccepts(parse, sources, v, current) && CombinationAccepts(parse, more, v, current)
  {
    hide CombinationAccepts, SourceAccepts;
    CombinationExactly(parse, sources + more, v, current);
    CombinationExactly(parse, sources, v, current);
    CombinationExactly(parse, more, v, current);
    assert forall s :: s in sources ==> s in sources + more;
    assert forall s :: s in more ==> s in sources + more;
  }

  /** The cooldown is combined the other way: it refuses exactly when some source sets one and
      every source that does would refuse by itself. */
  lemma CooldownExactly(parse: Parser, sources: seq<Source>, age: real)
    requires Combined(parse, sources, CooldownField).Ok? && age >= 0.0
    ensures Cooling(Combined(parse, sources, CooldownField).value, Some(age))
            <==> (&& (exists s :: s in sources && s.cooldown.Some?)
                  && forall s :: s in sources && s.cooldown.Some? ==>
                                   Cooling(NumberOf(parse, s.cooldown.value), Some(age)))
  {
    var combined := Combined(parse, sources, CooldownField).value;
    CombinedAbsent(parse, sources, CooldownField);
    if combined.Some? {
      CombinedExactly(parse, sources, CooldownField, combined.value);
      LeastIsGiven(parse, sources, CooldownField);
    }
  }

  lemma {:induction false} LeastMember(xs: seq<real>)
    requires xs != []
    ensures Least(xs) in xs
  {
    InHeadOrTail(xs);
    if |xs| > 1 {
      LeastMember(xs[1..]);
    }
  }

  lemma {:induction false} NumbersMember(parse: Parser, sources: seq<Source>, f: Field, x: real)
    requires Numbers(parse, Given(sources, f)).Some? && x in Numbers(parse, Given(sources, f)).value
    ensures exists s :: s in sources && At(s, f).Some? && NumberOf(parse, At(s, f).value) == Some(x)
  {
    InHeadOrTail(sources);
    var given := Given(sources, f);
    if At(sources[0], f).Some? {
      assert given[1..] == Given(sources[1..], f);
      if NumberOf(parse, At(sources[0], f).value) != Some(x) {
        NumbersMember(parse, sources[1..], f, x);
      }
    } else {
      assert given == Given(sources[1..], f);
      NumbersMember(parse, sources[1..], f, x);
    }
  }

  lemma LeastIsGiven(parse: Parser, sources: seq<Source>, f: Field)
    requires !f.MinField? && Combined(parse, sources, f).Ok? && Combined(parse, sources, f).value.Some?
    ensures exists s :: && s in sources && At(s, f).Some?
                        && NumberOf(parse, At(s, f).value) == Combined(parse, sources, f).value
  {
    var xs := Numbers(parse, Given(sources, f)).value;
    LeastMember(xs);
    NumbersMember(parse, sources, f, Least(xs));
  }

  /** A source that sets only a cooldown. */
  function CooldownSource(seconds: real): Source {
    Source(None, None, None, None, None, Some(Num(seconds)))
  }

  lemma CooldownSourcesCombine(parse: Parser, sources: seq<Source>, seconds: real)
    requires forall s :: s in sources ==> exists c: real :: s == CooldownSource(c)
    requires sources != [] && Combined(parse, sources, CooldownField) == Ok(Some(seconds))
    ensures Intersect(parse, sources) == Ok(Limits(None, None, None, None, None, Some(seconds)))
  {
    hide Combined, Intersection;
    AllWellTyped(parse, sources);
    CombinedAbsent(parse, sources, MinField);
    CombinedAbsent(parse, sources, MaxField);
    CombinedAbsent(parse, sources, DeltaField);
    CombinedAbsent(parse, sources, RateField);
    NoAllowedSets(sources);
  }

  lemma {:induction false} NoAllowedSets(sources: seq<Source>)
    requires forall s :: s in sources ==> s.allowed.None?
    ensures AllowedSets(sources) == []
  {
    if sources != [] {
      InHeadOrTail(sources);
      NoAllowedSets(sources[1..]);
    }
  }

  lemma CooldownsOf(parse: Parser, a: real, b: real)
    ensures Combined(parse, [CooldownSource(a)], CooldownField) == Ok(Some(a))
    ensures a >= b ==> Combined(parse, [CooldownSource(a), CooldownSource(b)], CooldownField) == Ok(Some(b))
  {
    var one, both := [CooldownSource(a)], [CooldownSource(a), CooldownSource(b)];
    assert one[1..] == [] && both[1..] == [CooldownSource(b)] && both[1..][1..] == [];
    assert Given(one, CooldownField) == [Num(a)];
    assert Given(both, CooldownField) == [Num(a)] + ([Num(b)] + []);
    assert [Num(a)][1..] == [] && ([Num(a)] + ([Num(b)] + []))[1..] == [Num(b)] && [Num(b)][1..] == [];
    assert [b] + [] == [b] && ([a] + [b])[1..] == [b];
    assert Numbers(parse, [Num(b)]) == Some([b]);
    assert Numbers(parse, Given(both, CooldownField)) == Some([a] + [b]);
    assert Least([b]) == b;
    assert a >= b ==> Least([a] + [b]) == b;
  }

  /** A second source with a shorter cooldown lets through what the first alone refuses. */
  lemma ShorterCooldownAdmits(parse: Parser, v: Scalar, long: real, age: real, short: real)
    requires NumberOf(parse, v).Some? && long > age >= short >= 0.0
    ensures var one := [CooldownSource(long)];
            Validated(parse, one, DecimalKind, v, None, Some(age), Num(1.0), Num(0.0)) == Err(CoolingDown)
    ensures var both := [CooldownSource(long), CooldownSource(short)];
            Validated(parse, both, DecimalKind, v, None, Some(age), Num(1.0), Num(0.0)).Ok?
  {
    hide Intersect, Combined;
    assert CooldownSource(long) in [CooldownSource(long), CooldownSource(short)];
    CooldownsOf(parse, long, short);
    CooldownSourcesCombine(parse, [CooldownSource(long)], long);
    CooldownSourcesCombine(parse, [CooldownSource(long), CooldownSource(short)], short);
  }

  /** Whether a value is validated: it has the declared type and denotes a number, every source
      accepts it, no cooldown runs, and the connector mapping is numeric. A true or false
      value therefore never is, although the boolean data type is a supported one. */
  lemma ValidatedExactly(
    parse: Parser, sources: seq<Source>, kind: Kind, v: Scalar, current: Option<Scalar>, age: Option<real>,
    scale: Scalar, offset: Scalar)
    ensures Validated(parse, sources, kind, v, current, age, scale, offset).Ok? <==>
            && Normalized(parse, kind, v).Ok? && NumberOf(parse, Normalized(parse, kind, v).value).Some?
            && (forall s :: s in sources ==> SourceAccepts(parse, s, Normalized(parse, kind, v).value, current))
            && (Combined(parse, sources, CooldownField).Ok? ==>
                  !Cooling(Combined(parse, sources, CooldownField).value, age))
            && NumberOf(parse, scale).Some? && NumberOf(parse, offset).Some?
    ensures kind.BooleanKind? ==> Validated(parse, sources, kind, v, current, age, scale, offset).Err?
  {
    hide Combined, AllowedSets, Intersection, SourceAccepts, LimitFault, Cooling;
    if Normalized(parse, kind, v).Ok? {
      CombinationExactly(parse, sources, Normalized(parse, kind, v).value, current);
    }
  }

  // ---------------------------------------------------- the values that come back

  predicate Accepts(parse: Parser, sources: seq<Source>, kind: Kind, v: Scalar, current: Option<Scalar>,
                    age: Option<real>, scale: Scalar, offset: Scalar) {
    Validated(parse, sources, kind, v, current, age, scale, offset).Ok?
  }

  /** A validated value denotes the number that was requested; for an integer type it is whole, and
      a text is returned as it came. */
  lemma NormalizedDenotes(
    parse: Parser, sources: seq<Source>, kind: Kind, v: Scalar, current: Option<Scalar>, age: Option<real>,
    scale: Scalar, offset: Scalar)
    requires Accepts(parse, sources, kind, v, current, age, scale, offset)
    ensures var normalized := Validated(parse, sources, kind, v, current, age, scale, offset).value.0;
            && NumberOf(parse, normalized).Some? && NumberOf(parse, normalized) == NumberOf(parse, v)
            && (kind.IntegerKind? || kind.DecimalKind? <==> normalized.Num?)
            && (kind.IntegerKind? ==> NumberOf(parse, v).value == NumberOf(parse, v).value.Floor as real)
            && (kind.TextKind? ==> normalized == v)
  {
    hide Intersect, LimitFault, Cooling;
  }

  /** Zero is encoded as the offset of the connector mapping. */
  lemma ZeroEncodesToOffset(
    parse: Parser, sources: seq<Source>, kind: Kind, v: Scalar, current: Option<Scalar>, age: Option<real>,
    scale: Scalar, offset: Scalar)
    requires Accepts(parse, sources, kind, v, current, age, scale, offset) && NumberOf(parse, v) == Some(0.0)
    ensures NumberOf(parse, offset) == Some(Validated(parse, sources, kind, v, current, age, scale, offset).value.1)
  {
    hide Intersect, LimitFault, Cooling;
  }

  /** The encodings of two validated values differ by scale times the difference of the values. */
  lemma EncodingIsLinear(
    parse: Parser, sources: seq<Source>, kind: Kind, v: Scalar, current: Option<Scalar>, age: Option<real>,
    others: seq<Source>, otherKind: Kind, w: Scalar, otherCurrent: Option<Scalar>, otherAge: Option<real>,
    scale: Scalar, offset: Scalar)
    requires Accepts(parse, sources, kind, v, current, age, scale, offset)
    requires Accepts(parse, others, otherKind, w, otherCurrent, otherAge, scale, offset)
    ensures NumberOf(parse, v).Some? && NumberOf(parse, w).Some? && NumberOf(parse, scale).Some?
    ensures Validated(parse, sources, kind, v, current, age, scale, offset).value.1
            - Validated(parse, others, otherKind, w, otherCurrent, otherAge, scale, offset).value.1
            == NumberOf(parse, scale).value * (NumberOf(parse, v).value - NumberOf(parse, w).value)
  {
    hide Intersect, LimitFault, Cooling;
  }

  /** Without a mapping of its own, scale 1 and offset 0, the value is sent as it is; and any mapping
      with a scale other than zero can be read back. */
  lemma EncodingReadsBack(
    parse: Parser, sources: seq<Source>, kind: Kind, v: Scalar, current: Option<Scalar>, age: Option<real>,
    scale: Scalar, offset: Scalar)
    requires Accepts(parse, sources, kind, v, current, age, scale, offset)
    ensures var encoded := Validated(parse, sources, kind, v, current, age, scale, offset).value.1;
            && NumberOf(parse, v).Some? && NumberOf(parse, scale).Some? && NumberOf(parse, offset).Some?
            && (scale == Num(1.0) && offset == Num(0.0) ==> NumberOf(parse, v) == Some(encoded))
            && (NumberOf(parse, scale).value != 0.0 ==>
                  NumberOf(parse, v) == Some((encoded - NumberOf(parse, offset).value) / NumberOf(parse, scale).value))
  {
    hide Intersect, LimitFault, Cooling;
    var encoded := Validated(parse, sources, kind, v, current, age, scale, offset).value.1;
    assert encoded - NumberOf(parse, offset).value == NumberOf(parse, v).value * NumberOf(parse, scale).value;
    if NumberOf(parse, scale).value != 0.0 {
      Divides(NumberOf(parse, v).value, NumberOf(parse, scale).value, encoded - NumberOf(parse, offset).value);
    }
  }

  lemma Divides(n: real, s: real, product: real)
    requires s != 0.0 && product == n * s
    ensures product / s == n
  {
  }

  /** A refusal by the limits names a bound that some source sets and the value breaks. */
  lemma LimitRefusalTellsWhy(parse: Parser, sources: seq<Source>, v: Scalar, current: Option<Scalar>)
    requires Intersect(parse, sources).Ok? && LimitFault(parse, Intersect(parse, sources).value, v, current).Some?
    ensures var n := NumberOf(parse, v);
            match LimitFault(parse, Intersect(parse, sources).value, v, current).value
            case NotAllowed => exists s :: s in sources && !Allows(s, Token(v))
            case BelowMinimum => n.Some? && exists s :: s in sources && !Passes(parse, s, MinField, n.value)
            case AboveMaximum => n.Some? && exists s :: s in sources && !Passes(parse, s, MaxField, n.value)
            case DeltaExceeded =>
              && n.Some? && current.Some? && NumberOf(parse, current.value).Some?
              && exists s :: s in sources
                             && !Passes(parse, s, DeltaField, Distance(n.value, NumberOf(parse, current.value).value))
            case NotNumeric => n.None? || (current.Some? && NumberOf(parse, current.value).None?)
            case _ => false
  {
    hide Combined, AllowedSets, Intersection, NumberOf, Token, Allows, Passes;
    var n := NumberOf(parse, v);
    AllowedExactly(sources, Token(v));
    if n.Some? {
      CombinedExactly(parse, sources, MinField, n.value);
      CombinedExactly(parse, sources, MaxField, n.value);
      if current.Some? && NumberOf(parse, current.value).Some? {
        CombinedExactly(parse, sources, DeltaField, Distance(n.value, NumberOf(parse, current.value).value));
      }
    }
  }

  /** The number lies within every source's minimum and maximum. */
  predicate Within(parse: Parser, sources: seq<Source>, x: real) {
    forall s :: s in sources ==> Passes(parse, s, MinField, x) && Passes(parse, s, MaxField, x)
  }

  predicate AllowedByAll(sources: seq<Source>, t: Scalar) {
    forall s :: s in sources ==> Allows(s, t)
  }

  lemma RangeExactly(parse: Parser, sources: seq<Source>)
    requires Combined(parse, sources, MinField).Ok? && Combined(parse, sources, MaxField).Ok?
    ensures var min := Combined(parse, sources, MinField).value;
            var max := Combined(parse, sources, MaxField).value;
            (min.Some? && max.Some? ==> min.value <= max.value) <==> exists x :: Within(parse, sources, x)
  {
    hide Combined, Passes;
    var min := Combined(parse, sources, MinField).value;
    var max := Combined(parse, sources, MaxField).value;
    forall x: real ensures Within(parse, sources, x) <==>
                           (min.Some? ==> min.value <= x) && (max.Some? ==> x <= max.value)
    {
      CombinedExactly(parse, sources, MinField, x);
      CombinedExactly(parse, sources, MaxField, x);
    }
    var x := if min.Some? then min.value else if max.Some? then max.value else 0.0;
    if min.Some? && max.Some? ==> min.value <= max.value {
      assert Within(parse, sources, x);
    }
  }

  lemma SharedExactly(sources: seq<Source>)
    ensures (AllowedSets(sources) == [] || Intersection(AllowedSets(sources)) != {})
            <==> exists t :: AllowedByAll(sources, t)
  {
    hide AllowedSets, Intersection, Allows;
    forall t ensures AllowedByAll(sources, t)
                     <==> AllowedSets(sources) == [] || t in Intersection(AllowedSets(sources))
    {
      AllowedExactly(sources, t);
    }
    if AllowedSets(sources) == [] {
      assert AllowedByAll(sources, Nil);
    }
  }

  /** The limits combine if and only if every one is a number, some number lies within all of them,
      and some value is allowed by all of them. */
  lemma CombinesExactly(parse: Parser, sources: seq<Source>)
    ensures Intersect(parse, sources).Ok? <==>
            && (forall s :: s in sources ==> FullyTyped(parse, s))
            && (exists x :: Within(parse, sources, x)) && (exists t :: AllowedByAll(sources, t))
  {
    hide Combined, AllowedSets, Intersection, Within, AllowedByAll, FullyTyped;
    AllWellTyped(parse, sources);
    SharedExactly(sources);
    if AllCombine(parse, sources) {
      RangeExactly(parse, sources);
    }
  }

  /** A value that is not validated is refused for a reason that holds. */
  lemma RefusalTellsWhy(
    parse: Parser, sources: seq<Source>, kind: Kind, v: Scalar, current: Option<Scalar>, age: Option<real>,
    scale: Scalar, offset: Scalar)
    requires Validated(parse, sources, kind, v, current, age, scale, offset).Err?
    ensures match Validated(parse, sources, kind, v, current, age, scale, offset).error
            case NotNumeric =>
              || (exists s :: s in sources && !FullyTyped(parse, s))
              || (!kind.BooleanKind? && NumberOf(parse, v).None?) || kind.BooleanKind?
              || (current.Some? && NumberOf(parse, current.value).None?)
              || NumberOf(parse, scale).None? || NumberOf(parse, offset).None?
            case NoOverlap => !(exists x :: Within(parse, sources, x)) || !(exists t :: AllowedByAll(sources, t))
            case NotInteger =>
              kind.IntegerKind? && NumberOf(parse, v).Some?
              && NumberOf(parse, v).value != NumberOf(parse, v).value.Floor as real
            case NotBoolean => kind.BooleanKind? && !v.Truth?
            case NotText => kind.TextKind? && !v.Word?
            case UnsupportedType => kind.OtherKind?
            case CoolingDown =>
              age.Some? && (age.value >= 0.0 ==> exists s :: s in sources && s.cooldown.Some?)
            case fault =>
              && Normalized(parse, kind, v).Ok? && Intersect(parse, sources).Ok?
              && LimitFault(parse, Intersect(parse, sources).value, Normalized(parse, kind, v).value, current) == Some(fault)
  {
    hide Within, AllowedByAll, FullyTyped, LimitFault, NumberOf, Intersect;
    CombinesExactly(parse, sources);
    UncombinedExactly(parse, sources);
    if Intersect(parse, sources).Ok? {
      CooldownOf(parse, sources);
      if Normalized(parse, kind, v).Ok? {
        NormalizedKeepsNumber(parse, kind, v);
        if LimitFault(parse, Intersect(parse, sources).value, Normalized(parse, kind, v).value, current).Some? {
          FaultKinds(parse, Intersect(parse, sources).value, Normalized(parse, kind, v).value, current);
        }
        if age.Some? && age.value >= 0.0 {
          CooldownExactly(parse, sources, age.value);
        }
      }
    }
  }

  lemma NormalizedKeepsNumber(parse: Parser, kind: Kind, v: Scalar)
    requires Normalized(parse, kind, v).Ok?
    ensures NumberOf(parse, Normalized(parse, kind, v).value) == NumberOf(parse, v)
  {
  }

  lemma CooldownOf(parse: Parser, sources: seq<Source>)
    requires Intersect(parse, sources).Ok?
    ensures Combined(parse, sources, CooldownField) == Ok(Intersect(parse, sources).value.cooldown)
  {
    hide Combined, AllowedSets, Intersection;
  }

  lemma FaultKinds(parse: Parser, limits: Limits, v: Scalar, current: Option<Scalar>)
    requires LimitFault(parse, limits, v, current).Some?
    ensures LimitFault(parse, limits, v, current).value in {NotAllowed, NotNumeric, BelowMinimum, AboveMaximum, DeltaExceeded}
    ensures LimitFault(parse, limits, v, current).value == NotNumeric ==>
              NumberOf(parse, v).None? || (current.Some? && NumberOf(parse, current.value).None?)
  {
    hide NumberOf, Token;
  }

  lemma UncombinedExactly(parse: Parser, sources: seq<Source>)
    ensures Intersect(parse, sources).Err? ==>
            match Intersect(parse, sources).error
            case NotNumeric => exists s :: s in sources && !FullyTyped(parse, s)
            case NoOverlap => !(exists x :: Within(parse, sources, x)) || !(exists t :: AllowedByAll(sources, t))
            case _ => false
  {
    hide Combined, AllowedSets, Intersection, Within, AllowedByAll, FullyTyped;
    AllWellTyped(parse, sources);
    SharedExactly(sources);
    CombinedErrors(parse, sources);
    if Combined(parse, sources, MinField).Ok? && Combined(parse, sources, MaxField).Ok? {
      RangeExactly(parse, sources);
    }
  }

  lemma CombinedErrors(parse: Parser, sources: seq<Source>)
    ensures forall f :: Combined(parse, sources, f).Err? ==> Combined(parse, sources, f).error == NotNumeric
  {
  }
}
