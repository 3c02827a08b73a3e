/** What a raw signal row means field by field: defaults, older names, and why one is refused. */
module MapRules {

  import opened Common
  import opened TextRules
  import opened DatapointMaps
  import opened MapProofs

  // ------------------------------------------------------------------ defaults

  predicate Lacks(d: Dict, fields: set<Field>) {
    forall f :: f in fields ==> f !in d
  }

  /** A row that says nothing about access, code, count and display is read with function code 3, as
      many registers as its type needs, as a read-only value, or a status if it is a boolean. */
  lemma WireDefaults(lex: Lexer, d: Dict, t: DataType)
    requires TypeOf(lex, d) == Some(t)
    requires Lacks(d, {FReadFunctionCode, FFunctionCode, FObjectsCount, FCamelObjectsCount, FAccess, FWritable, FDisplayType})
    ensures WireOf(lex, d)
            == Ok(Wire(t, 3, match t case Bool | Uint16 | Int16 => 1 case Uint32 | Int32 | Float32 => 2 case _ => 4,
                       ReadOnly, None, if t == Bool then StatusDisplay else ValueDisplay))
  {
    hide TypeOf;
  }

  lemma TypeDefaults(lex: Lexer, d: Dict)
    requires Lacks(d, {FDataType, FType})
    ensures TypeOf(lex, d) == Some(Uint16)
  {
    LowerFixes("uint16");
  }

  /** A writable signal without a write code of its own gets 5 for a boolean, 6 for a single register
      and 16 for more. */
  lemma WriteDefaults(lex: Lexer, d: Dict, t: DataType)
    requires Lacks(d, {FWriteFunctionCode, FCamelWriteFunctionCode})
    ensures WriteCodeOf(lex, d, t, ReadOnly) == Ok(None)
    ensures WriteCodeOf(lex, d, t, ReadWrite)
            == Ok(Some(match t case Bool => 5 case Uint16 | Int16 => 6 case _ => 16))
  {
  }

  /** A given write code must be one of the four Modbus write codes. */
  lemma WriteCodesExactly(lex: Lexer, d: Dict, t: DataType, c: int)
    requires Get(d, FWriteFunctionCode) == Whole(c) && c != 0
    ensures WriteCodeOf(lex, d, t, ReadWrite).Ok? <==> c in {5, 6, 15, 16}
    ensures WriteCodeOf(lex, d, t, ReadWrite).Ok? ==> WriteCodeOf(lex, d, t, ReadWrite).value == Some(c)
  {
  }

  lemma ScalingDefaults(lex: Lexer, d: Dict)
    requires Lacks(d, {FMultiplier, FScale, FOffset, FInvalidValues, FCamelInvalidValues})
    ensures ScalingOf(lex, d) == Ok(Scaling(1.0, 0.0, []))
  {
  }

  lemma LimitsDefaults(lex: Lexer, d: Dict)
    requires Lacks(d, {FNormalMin, FNormalMax, FSafetyMin, FSafetyMax, FMin, FMax})
    ensures LimitsOf(lex, d) == Ok(Limits(None, None, None, None))
  {
  }

  lemma TextDefaults(lex: Lexer, d: Dict, key: string)
    requires Lacks(d, {FLabel, FUnit, FAlertSuggestion, FEnergyDirection})
    ensures DirectionOf(lex, d) == Some(NoDirection)
    ensures TextOf(lex, d, FUnit, 32) == "" && TextOf(lex, d, FAlertSuggestion, 300) == ""
    ensures Titled(key, false) != "" ==> TitleOf(lex, d, key) == Cut(Strip(Titled(key, false)), 200)
  {
    hide Titled, Cut;
    LowerFixes("none");
    assert Strip("") == "" && Cut("", 32) == "" && Cut("", 300) == "" by { CutNothing(); }
  }

  lemma CutNothing()
    ensures Strip("") == "" && Cut("", 32) == "" && Cut("", 300) == ""
  {
  }

  // ---------------------------------------------------------------- raw values

  /** What counts as not given: nothing, false, zero, the empty text and the empty list. */
  lemma FalsyExactly(v: Value)
    ensures !Truthy(v) <==> v in {Null, Flag(false), Whole(0), Number(0.0), Text(""), Items([])}
  {
  }

  /** A whole number is read from a number by cutting its fraction off, and from true and false as 1
      and 0; a real number from them likewise. */
  lemma NumbersReadExactly(lex: Lexer, r: real, n: int)
    ensures IntOf(lex, Number(r)).Some?
    ensures var k := IntOf(lex, Number(r)).value;
            if r >= 0.0 then 0 <= k && k as real <= r < k as real + 1.0 else k <= 0 && k as real - 1.0 < r <= k as real
    ensures IntOf(lex, Whole(n)) == Some(n) && FloatOf(lex, Whole(n)) == Finite(n as real)
    ensures IntOf(lex, Flag(true)) == Some(1) && IntOf(lex, Flag(false)) == Some(0)
    ensures FloatOf(lex, Flag(true)) == Finite(1.0) && FloatOf(lex, Flag(false)) == Finite(0.0)
    ensures FloatOf(lex, Number(r)) == Finite(r)
    ensures IntOf(lex, Null) == None && IntOf(lex, NotFinite) == None && !FloatOf(lex, NotFinite).Finite?
  {
  }

  /** A register map's read code: its own if it gives one, else its older code if that is a read code,
      else 1 for a boolean and 3 for anything else; 3 as well if it gives neither. */
  lemma ReadCodeExactly(config: Dict, code: int, older: int)
    ensures FCamelReadFunctionCode in config && config[FCamelReadFunctionCode] == Whole(code) ==>
              ReadCodeOf(config) == Whole(code)
    ensures FCamelReadFunctionCode !in config && FFunctionCode !in config ==> ReadCodeOf(config) == Whole(3)
    ensures FCamelReadFunctionCode !in config && FFunctionCode in config && config[FFunctionCode] == Whole(older) ==>
              ReadCodeOf(config) == if older in {1, 2, 3, 4} then Whole(older)
                                    else if FType in config && config[FType] == Text("bool") then Whole(1) else Whole(3)
  {
  }

  /** Its write code: its own if it gives one, else its older code if that is a write code. */
  lemma OlderWriteCodeExactly(config: Dict, code: int, older: int)
    ensures FCamelWriteFunctionCode in config && config[FCamelWriteFunctionCode] == Whole(code) ==>
              LegacyWriteCode(config) == Whole(code)
    ensures FCamelWriteFunctionCode !in config && FFunctionCode in config && config[FFunctionCode] == Whole(older) ==>
              LegacyWriteCode(config) == if older in {5, 6, 15, 16} then Whole(older) else Null
    ensures FCamelWriteFunctionCode !in config && FFunctionCode !in config ==> LegacyWriteCode(config) == Null
  {
  }

  /** The codes and the count of a signal that gives whole numbers: read codes 1 to 4, and exactly the
      registers its type needs. */
  lemma WireExactly(lex: Lexer, d: Dict, t: DataType, code: int, count: int)
    requires TypeOf(lex, d) == Some(t) && Lacks(d, {FAccess, FWritable, FDisplayType})
    requires Get(d, FReadFunctionCode) == Whole(code) && Get(d, FObjectsCount) == Whole(count)
    ensures WireOf(lex, d).Ok? <==> code in {1, 2, 3, 4} && count == RegisterCount(t)
    ensures WireOf(lex, d).Ok? ==> WireOf(lex, d).value.readCode == code && WireOf(lex, d).value.count == count
    ensures !(code in {1, 2, 3, 4}) ==> WireOf(lex, d) == Err(OutOfRange)
    ensures code in {1, 2, 3, 4} && count in {1, 2, 3, 4} && count != RegisterCount(t) ==> WireOf(lex, d) == Err(BadCount)
  {
    hide TypeOf;
  }

  // --------------------------------------------------------------- older names

  /** The value under the newer name, or under the older one if there is none. */
  function Renamed(d: Dict, newer: Field, older: Field): Dict {
    if newer !in d && older in d then d[newer := d[older]] else d
  }

  /** The function code is read alike under its older name; so are the register count, the scale, the
      invalid values and the safety limits. */
  lemma OlderCodeName(lex: Lexer, d: Dict)
    ensures WireOf(lex, Renamed(d, FReadFunctionCode, FFunctionCode)) == WireOf(lex, d)
  {
    hide Integer, TypeNamed, Lower, AccessNamed, DisplayNamed, Str, Truthy;
  }

  lemma OlderCountName(lex: Lexer, d: Dict)
    ensures WireOf(lex, Renamed(d, FObjectsCount, FCamelObjectsCount)) == WireOf(lex, d)
  {
    hide Integer, TypeNamed, Lower, AccessNamed, DisplayNamed, Str, Truthy;
  }

  lemma OlderScaleName(lex: Lexer, d: Dict)
    ensures ScalingOf(lex, Renamed(d, FMultiplier, FScale)) == ScalingOf(lex, d)
  {
    hide Numeric, CodesOf, StripWords, Split, Texts, Truthy;
  }

  lemma OlderCodesName(lex: Lexer, d: Dict)
    ensures InvalidCodes(lex, Renamed(d, FInvalidValues, FCamelInvalidValues)) == InvalidCodes(lex, d)
  {
    hide CodesOf, StripWords, Split, Texts, Truthy;
  }

  lemma OlderLimitNames(lex: Lexer, d: Dict)
    ensures LimitsOf(lex, Renamed(d, FSafetyMin, FMin)) == LimitsOf(lex, d)
    ensures LimitsOf(lex, Renamed(d, FSafetyMax, FMax)) == LimitsOf(lex, d)
  {
    hide Numeric;
  }

  /** A row marked as writable is read-write unless it says otherwise. */
  lemma WritableMeansReadWrite(lex: Lexer, d: Dict)
    requires FAccess !in d
    ensures AccessOf(lex, d) == Some(if FWritable in d && Truthy(d[FWritable]) then ReadWrite else ReadOnly)
  {
  }

  // ----------------------------------------------------------------- refusals

  /** Why the way a signal is read and written is refused. */
  lemma WireRefusalTellsWhy(lex: Lexer, d: Dict)
    requires WireOf(lex, d).Err?
    ensures match WireOf(lex, d).error
            case BadType => TypeOf(lex, d).None?
            case BadCount => TypeOf(lex, d).Some?
            case BadAccess => AccessOf(lex, d).None?
            case BadDisplay => TypeOf(lex, d).Some? && DisplayOf(lex, d, TypeOf(lex, d).value).None?
            case BadWriteCode => AccessOf(lex, d) == Some(ReadWrite)
            case BadInteger | OutOfRange => TypeOf(lex, d).Some?
            case _ => false
  {
    hide TypeOf, AccessOf, DisplayOf;
  }

  /** Why its scaling is. */
  lemma ScalingRefusalTellsWhy(lex: Lexer, d: Dict)
    requires ScalingOf(lex, d).Err?
    ensures var m := Numeric(lex, GetOr(d, FMultiplier, GetOr(d, FScale, Whole(1))), Some(1.0));
            var o := Numeric(lex, GetOr(d, FOffset, Whole(0)), Some(0.0));
            match ScalingOf(lex, d).error
            case BadNumber => m.Err? || o.Err?
            case ZeroMultiplier => m == Ok(Some(0.0))
            case TooManyCodes | BadCode => m.Ok? && o.Ok? && InvalidCodes(lex, d) == Err(ScalingOf(lex, d).error)
            case _ => false
  {
    hide InvalidCodes;
    NumericFault(lex, GetOr(d, FMultiplier, GetOr(d, FScale, Whole(1))), Some(1.0));
    NumericFault(lex, GetOr(d, FOffset, Whole(0)), Some(0.0));
    CodeFaults(lex, d);
  }

  /** A number is refused exactly when it is given and is no finite number. */
  lemma NumericFault(lex: Lexer, v: Value, default: Option<real>)
    ensures Numeric(lex, v, default).Err? <==> v != Null && v != Text("") && !FloatOf(lex, v).Finite?
    ensures Numeric(lex, v, default).Err? ==> Numeric(lex, v, default).error == BadNumber
    ensures v == Null || v == Text("") ==> Numeric(lex, v, default) == Ok(default)
  {
  }

  lemma {:induction false} CodesFault(lex: Lexer, vs: seq<Value>)
    ensures CodesOf(lex, vs).Err? ==> CodesOf(lex, vs).error == BadCode
  {
    if vs != [] {
      CodesFault(lex, vs[1..]);
    }
  }

  lemma CodeFaults(lex: Lexer, d: Dict)
    ensures InvalidCodes(lex, d).Err? ==> InvalidCodes(lex, d).error in {TooManyCodes, BadCode}
  {
    hide CodesOf, StripWords, Split;
    var raw := Or(GetOr(d, FInvalidValues, GetOr(d, FCamelInvalidValues, Items([]))), Items([]));
    if raw.Text? {
      CodesFault(lex, Texts(StripWords(Split(raw.text))));
    } else if raw.Items? {
      CodesFault(lex, raw.items);
    }
  }

  /** A list of limits is refused exactly when one is no number or a minimum lies above its maximum. */
  lemma LimitsExactly(lex: Lexer, d: Dict)
    ensures var nl, nh := Numeric(lex, Get(d, FNormalMin), None), Numeric(lex, Get(d, FNormalMax), None);
            var sl, sh := Numeric(lex, GetOr(d, FSafetyMin, Get(d, FMin)), None), Numeric(lex, GetOr(d, FSafetyMax, Get(d, FMax)), None);
            match LimitsOf(lex, d)
            case Ok(l) =>
              && nl == Ok(l.normalMin) && nh == Ok(l.normalMax) && sl == Ok(l.safetyMin) && sh == Ok(l.safetyMax)
              && (l.normalMin.Some? && l.normalMax.Some? ==> l.normalMin.value <= l.normalMax.value)
              && (l.safetyMin.Some? && l.safetyMax.Some? ==> l.safetyMin.value <= l.safetyMax.value)
            case Err(NormalInverted) => nl.Ok? && nh.Ok? && Inverted(nl.value, nh.value)
            case Err(SafetyInverted) => sl.Ok? && sh.Ok? && Inverted(sl.value, sh.value)
            case Err(e) => e == BadNumber && (nl.Err? || nh.Err? || sl.Err? || sh.Err?)
  {
    hide FloatOf;
    NumericFault(lex, Get(d, FNormalMin), None);
    NumericFault(lex, Get(d, FNormalMax), None);
    NumericFault(lex, GetOr(d, FSafetyMin, Get(d, FMin)), None);
    NumericFault(lex, GetOr(d, FSafetyMax, Get(d, FMax)), None);
  }

  /** Why a signal with an acceptable key is refused. */
  lemma SignalRefusalTellsWhy(lex: Lexer, d: Dict, key: string)
    requires PointOf(lex, d, key).Err?
    ensures var e := PointOf(lex, d, key).error;
            || (e == NoAddress && Get(d, FAddress) in {Null, Text("")})
            || WireOf(lex, d) == Err(e) || ScalingOf(lex, d) == Err(e) || LimitsOf(lex, d) == Err(e)
            || (e == BadDirection && DirectionOf(lex, d).None?)
            || (e == BadInteger && IntOf(lex, Get(d, FAddress)).None?)
            || (e == OutOfRange && IntOf(lex, Get(d, FAddress)).Some? && !(0 <= IntOf(lex, Get(d, FAddress)).value <= 65535))
  {
    hide WireOf, ScalingOf, LimitsOf, DirectionOf;
  }

  /** Why a list is refused: it is empty or has more than 20 rows, or some row is no signal, has a bad
      key, repeats one, or is refused by itself. */
  lemma ListRefusalTellsWhy(lex: Lexer, rows: seq<Row>)
    requires Normalize(lex, rows).Err?
    ensures match Normalize(lex, rows).error
            case NoSignals => rows == [] || RowRefused(lex, rows, NoSignals)
            case TooManySignals => |rows| > 20 || RowRefused(lex, rows, TooManySignals)
            case e => RowRefused(lex, rows, e)
  {
    hide RowRefused;
    if 0 < |rows| <= 20 {
      RowsRefused(lex, rows, {});
    }
  }

  ghost predicate RowRefused(lex: Lexer, rows: seq<Row>, e: Fault) {
    exists i :: 0 <= i < |rows| && match rows[i]
                                   case NotADict => e == InvalidRow
                                   case Dictionary(d) =>
                                     || (e == BadKey && !ValidKey(KeyOf(lex, d)))
                                     || e == DuplicateKey(KeyOf(lex, d))
                                     || PointOf(lex, d, KeyOf(lex, d)) == Err(e)
  }

  lemma {:induction false} RowsRefused(lex: Lexer, rows: seq<Row>, seen: set<string>)
    requires NormalizeRows(lex, rows, seen).Err?
    ensures RowRefused(lex, rows, NormalizeRows(lex, rows, seen).error)
  {
    hide PointOf, KeyOf, ValidKey;
    var e := NormalizeRows(lex, rows, seen).error;
    if !(rows[0].NotADict? && e == InvalidRow) && rows[0].Dictionary? {
      var key := KeyOf(lex, rows[0].dict);
      if ValidKey(key) && key !in seen && PointOf(lex, rows[0].dict, key).Ok? {
        RowsRefused(lex, rows[1..], seen + {key});
        assert RowRefused(lex, rows[1..], e);
        var i :| 0 <= i < |rows[1..]| && match rows[1..][i]
                                         case NotADict => e == InvalidRow
                                         case Dictionary(d) =>
                                           || (e == BadKey && !ValidKey(KeyOf(lex, d)))
                                           || e == DuplicateKey(KeyOf(lex, d))
                                           || PointOf(lex, d, KeyOf(lex, d)) == Err(e);
        assert rows[i + 1] == rows[1..][i];
      } else {
        assert rows[0] == rows[0];
      }
    }
  }
}
