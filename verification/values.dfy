/** The leaves of an alarm expression (`Value`, `QualityValue`, `CheckValue`)
    and the parser of `"Prefix:...:Name"` value strings.

    The three classes become the three constructors of one datatype. A
    `BaseValue` is a plain `Value` with all the defaults of the base class.
 */
module Values {
  import opened Wrappers
  import opened Qualities
  import opened Framework
  import opened Objects
  import Text

  const QualityPrefix: string := "Quality"
  const CheckPrefix: string := "Check"

  /** `typeHash()`: the base class hashes `void`; both concrete kinds hash
      `core::Quality`, their common `value_type`. */
  datatype TypeTag = VoidType | QualityType

  datatype Value =
    | BaseValue
      /** A quality literal, fixed at construction. */
    | QualityValue(name: string, quality: Quality)
      /** The last quality published by the check called `name`. */
    | CheckValue(name: string, lastQuality: Quality)

  /** `getName()`: the base class's default is empty; each concrete kind
      returns the name it was built with. */
  function Name(v: Value): (n: string)
    ensures v.BaseValue? ==> n == ""
    ensures !v.BaseValue? ==> n == v.name
  {
    match v
    case BaseValue => ""
    case QualityValue(n, _) => n
    case CheckValue(n, _) => n
  }

  /** `isValid()`: false for the base class, always true for both concrete kinds. */
  predicate IsValid(v: Value)
    ensures IsValid(v) <==> TypeHash(v) == QualityType
  {
    match v
    case BaseValue => false
    case QualityValue(_, _) => true
    case CheckValue(_, _) => true
  }

  /** `isReady()`: false for the base class, always true for a literal, and
      for a check value true once its last quality's level is not Null's. */
  predicate IsReady(scale: LevelScale, v: Value)
    ensures scale.Distinct() ==>
              (IsReady(scale, v) <==> v.QualityValue? || (v.CheckValue? && v.lastQuality != Null))
  {
    match v
    case BaseValue => false
    case QualityValue(_, _) => true
    case CheckValue(_, q) => scale.Level(q) != scale.Level(Null)
  }

  /** Only the base class hashes `void`. */
  function TypeHash(v: Value): (t: TypeTag)
    ensures t == VoidType <==> v.BaseValue?
  {
    if v.BaseValue? then VoidType else QualityType
  }

  /** `getCompareObject()` of a concrete value: the quality it holds. */
  function Held(v: Value): Quality
    requires !v.BaseValue?
  {
    if v.QualityValue? then v.quality else v.lastQuality
  }

  /** `a->compare(b)`. The base class answers 0 whatever `b` is; a concrete
      value subtracts `b`'s level from its own, which needs `b` to hold a
      quality (otherwise `std::any_cast` throws). */
  function Compare(scale: LevelScale, a: Value, b: Value): (c: int)
    requires a.BaseValue? || !b.BaseValue?
    ensures a.BaseValue? ==> c == 0
    ensures !a.BaseValue? && scale.Distinct() ==> (c == 0 <==> Held(a) == Held(b))
    ensures !a.BaseValue? ==> (c < 0 <==> scale.Level(Held(a)) < scale.Level(Held(b)))
    ensures !a.BaseValue? ==> (c > 0 <==> scale.Level(Held(a)) > scale.Level(Held(b)))
  {
    if a.BaseValue? then 0 else scale.Level(Held(a)) - scale.Level(Held(b))
  }

  /** The base class's defaults: not valid, not ready, nameless, hashing
      `void`, comparing as 0, with no inputs and ignoring updates. */
  lemma BaseValueDefaults(scale: LevelScale, b: Value, d: QualityObject)
    ensures !IsValid(BaseValue) && !IsReady(scale, BaseValue) && Name(BaseValue) == ""
    ensures TypeHash(BaseValue) == VoidType && Compare(scale, BaseValue, b) == 0
    ensures Inputs(BaseValue) == [] && Update(BaseValue, d) == BaseValue
  {
  }

  /** A literal is always valid and ready; a check value is always valid;
      and both kinds hash the same type, so they can be compared. */
  lemma ConcreteValueKinds(scale: LevelScale, n: string, q: Quality)
    ensures IsValid(QualityValue(n, q)) && IsReady(scale, QualityValue(n, q))
    ensures IsValid(CheckValue(n, q))
    ensures TypeHash(QualityValue(n, q)) == QualityType && TypeHash(CheckValue(n, q)) == QualityType
  {
  }

  /** Comparing concrete values the other way round flips the sign. */
  lemma CompareAntisymmetric(scale: LevelScale, a: Value, b: Value)
    requires !a.BaseValue? && !b.BaseValue?
    ensures Compare(scale, b, a) == -Compare(scale, a, b)
  {
  }

  /** The binding under which a check's published quality object arrives. */
  function CheckBinding(checkName: string): string {
    "check-" + checkName
  }

  /** `getInputs()`: nothing for the base class and for literals (which
      inherit the default), one input for a check value. */
  function Inputs(v: Value): (ins: seq<InputSpec>)
    ensures |ins| <= 1
    ensures |ins| == 1 <==> v.CheckValue?
    ensures v.CheckValue? ==>
              ins[0] == InputSpec(CheckBinding(v.name), QcOrigin, CheckerDescription(v.name), 0)
  {
    match v
    case CheckValue(n, _) => [InputSpec(CheckBinding(n), QcOrigin, CheckerDescription(n), 0)]
    case _ => []
  }

  /** `update(data)`: a check value takes the quality of the received quality
      object; the others ignore updates. */
  function Update(v: Value, data: QualityObject): (r: Value)
    ensures Name(r) == Name(v) && TypeHash(r) == TypeHash(v) && Inputs(r) == Inputs(v)
    ensures v.CheckValue? ==> Held(r) == data.quality
    ensures !v.CheckValue? ==> r == v
  {
    match v
    case CheckValue(n, _) => CheckValue(n, data.quality)
    case _ => v
  }

  /** Only the latest update is remembered, so repeating it changes nothing. */
  lemma UpdateOverwrites(v: Value, d1: QualityObject, d2: QualityObject)
    ensures Update(Update(v, d1), d2) == Update(v, d2)
    ensures Update(Update(v, d1), d1) == Update(v, d1)
  {
  }

  /** A check value becomes ready exactly when a non-Null quality arrives. */
  lemma UpdateMakesReady(scale: LevelScale, v: Value, d: QualityObject)
    requires scale.Distinct() && v.CheckValue?
    ensures IsReady(scale, Update(v, d)) <==> d.quality != Null
  {
  }

  /** The spellings a quality literal may use: capitalised or all lowercase. */
  ghost predicate IsQualityName(name: string) {
    exists q :: name == CapitalName(q) || name == LowerName(q)
  }

  /** The `QualityValue(name)` constructor. */
  function MakeQualityValue(name: string): (r: Result<Value>)
    ensures r.Ok? <==> IsQualityName(name)
    ensures r.Ok? ==> r.value.QualityValue? && r.value.name == name
    ensures r.Ok? ==> name == CapitalName(r.value.quality) || name == LowerName(r.value.quality)
    ensures r.Err? ==> r.error == FatalException("Quality value parse error: unknown name '" + name + "'")
  {
    if name == "Good" || name == "good" then
      assert name == CapitalName(Good) || name == LowerName(Good);
      Ok(QualityValue(name, Good))
    else if name == "Medium" || name == "medium" then
      assert name == CapitalName(Medium) || name == LowerName(Medium);
      Ok(QualityValue(name, Medium))
    else if name == "Bad" || name == "bad" then
      assert name == CapitalName(Bad) || name == LowerName(Bad);
      Ok(QualityValue(name, Bad))
    else if name == "Null" || name == "null" then
      assert name == CapitalName(Null) || name == LowerName(Null);
      Ok(QualityValue(name, Null))
    else
      assert forall q :: name != CapitalName(q) && name != LowerName(q);
      Err(FatalException("Quality value parse error: unknown name '" + name + "'"))
  }

  /** Any other capitalisation is refused. */
  lemma UpperCaseQualityRejected()
    ensures MakeQualityValue("GOOD").Err?
    ensures MakeQualityValue("Good") == Ok(QualityValue("Good", Good))
  {
  }

  /** The `CheckValue(name)` constructor: no quality has arrived yet, so the
      last quality is Null and the value is not ready. */
  function MakeCheckValue(name: string): (r: Value)
    ensures r.CheckValue? && Name(r) == name && IsValid(r)
    ensures forall scale: LevelScale :: scale.Distinct() ==> !IsReady(scale, r)
  {
    CheckValue(name, Null)
  }

  const ValueParseError: Error := FatalException("Value parse error: probably not in form \"Prefix::Name\"")

  /** `AlarmExpression::parseValue`: the string must split on `':'` into
      exactly three parts whose first is a known prefix; the third part is
      the name handed to the constructor and the middle part is ignored. */
  function ParseValue(s: string): (r: Result<Value>)
    ensures r.Ok? ==> TypeHash(r.value) == QualityType && IsValid(r.value)
    ensures Text.Count(s, ':') != 2 ==> r == Err(ValueParseError)
  {
    var parts := Text.Split(s, ':');
    if |parts| == 3 && parts[0] == QualityPrefix then MakeQualityValue(parts[2])
    else if |parts| == 3 && parts[0] == CheckPrefix then Ok(MakeCheckValue(parts[2]))
    else Err(ValueParseError)
  }

  /** A value string with prefix `p`, ignored middle `m` and name `n`. */
  function ValueString(p: string, m: string, n: string): string {
    p + ":" + m + ":" + n
  }

  /** What `ParseValue` makes of a well-formed three-part string. */
  lemma {:induction false} ParseValueOfParts(p: string, m: string, n: string)
    requires ':' !in p && ':' !in m && ':' !in n
    ensures ParseValue(ValueString(p, m, n)) ==
              if p == QualityPrefix then MakeQualityValue(n)
              else if p == CheckPrefix then Ok(MakeCheckValue(n))
              else Err(ValueParseError)
  {
    var parts := [p, m, n];
    assert Text.Join(parts[2..], ':') == n;
    assert parts[1..][1..] == parts[2..];
    assert Text.Join(parts[1..], ':') == m + ":" + n;
    assert Text.Join(parts, ':') == p + ":" + (m + ":" + n);
    assert ValueString(p, m, n) == Text.Join(parts, ':');
    Text.SplitJoin(parts, ':');
  }

  /** `ParseValue` succeeds exactly on strings of the form
      `"Quality:<m>:<quality name>"` or `"Check:<m>:<name>"` with no further
      colons. */
  lemma {:induction false} ParseValueSucceeds(s: string)
    ensures ParseValue(s).Ok? <==>
              exists p, m, n :: s == ValueString(p, m, n) && ':' !in p && ':' !in m && ':' !in n
                                && ((p == QualityPrefix && IsQualityName(n)) || p == CheckPrefix)
  {
    var parts := Text.Split(s, ':');
    if ParseValue(s).Ok? {
      Text.JoinSplit(s, ':');
      assert |parts| == 3;
      assert parts[1..][1..] == parts[2..];
      assert Text.Join(parts[1..], ':') == parts[1] + [':'] + parts[2];
      assert s == parts[0] + [':'] + (parts[1] + [':'] + parts[2]);
      assert s == ValueString(parts[0], parts[1], parts[2]);
      assert ':' !in parts[0] && ':' !in parts[1] && ':' !in parts[2];
    }
    if exists p, m, n :: s == ValueString(p, m, n) && ':' !in p && ':' !in m && ':' !in n
                         && ((p == QualityPrefix && IsQualityName(n)) || p == CheckPrefix) {
      var p, m, n :| s == ValueString(p, m, n) && ':' !in p && ':' !in m && ':' !in n
                     && ((p == QualityPrefix && IsQualityName(n)) || p == CheckPrefix);
      ParseValueOfParts(p, m, n);
    }
  }

  /** The middle part has no influence on the parsed value. */
  lemma MiddlePartIgnored(p: string, m1: string, m2: string, n: string)
    requires ':' !in p && ':' !in m1 && ':' !in m2 && ':' !in n
    ensures ParseValue(ValueString(p, m1, n)) == ParseValue(ValueString(p, m2, n))
  {
    ParseValueOfParts(p, m1, n);
    ParseValueOfParts(p, m2, n);
  }

  /** The documented `"Prefix::Name"` form parses: its middle part is empty. */
  lemma DoubleColonFormParses(n: string)
    requires ':' !in n
    ensures ParseValue(QualityPrefix + "::" + n) == MakeQualityValue(n)
    ensures ParseValue(CheckPrefix + "::" + n) == Ok(CheckValue(n, Null))
  {
    ParseValueOfParts(QualityPrefix, "", n);
    assert QualityPrefix + "::" + n == ValueString(QualityPrefix, "", n);
    ParseValueOfParts(CheckPrefix, "", n);
    assert CheckPrefix + "::" + n == ValueString(CheckPrefix, "", n);
  }

  /** A single colon, as in `"Quality:Good"`, gives two parts and is refused. */
  lemma SingleColonFormRejected()
    ensures ParseValue("Quality:Good") == Err(ValueParseError)
  {
    var parts := ["Quality", "Good"];
    assert "Quality:Good" == Text.Join(parts, ':');
    Text.SplitJoin(parts, ':');
  }
}
