/** The add-skill form: validation, submission, field updates and the months input. */
module SkillForm {
  import opened Wrappers
  import opened Decimal

  datatype Field = SkillNameField | LevelField | MonthsField | DescriptionField

  const AllFields: set<Field> := {SkillNameField, LevelField, MonthsField, DescriptionField}

  datatype FormData = FormData(skillName: string, level: string, months: int, description: string)

  /** The form's starting values. */
  const InitialForm: FormData := FormData("Python", "Basic", 5, "")

  /** The error state: a field absent, set to a message, or reset to `undefined`. */
  type ErrorState = map<Field, Option<string>>

  // ---------------------------------------------------------------------------
  // JavaScript whitespace and String.prototype.trim
  // ---------------------------------------------------------------------------

  /** ECMAScript WhiteSpace and LineTerminator code points. */
  predicate IsJsSpace(c: char) {
    c == '\t' || c == '\n' || c == '\U{000B}' || c == '\U{000C}' || c == '\r' || c == ' ' ||
    c == '\U{00A0}' || c == '\U{1680}' || ('\U{2000}' <= c <= '\U{200A}') ||
    c == '\U{2028}' || c == '\U{2029}' || c == '\U{202F}' || c == '\U{205F}' ||
    c == '\U{3000}' || c == '\U{FEFF}'
  }

  function TrimStart(s: string): string {
    if s != [] && IsJsSpace(s[0]) then TrimStart(s[1..]) else s
  }

  function TrimEnd(s: string): string {
    if s != [] && IsJsSpace(s[|s| - 1]) then TrimEnd(s[..|s| - 1]) else s
  }

  function JsTrim(s: string): string {
    TrimEnd(TrimStart(s))
  }

  lemma {:induction false} TrimStartBlank(s: string)
    ensures TrimStart(s) == [] <==> forall i | 0 <= i < |s| :: IsJsSpace(s[i])
    ensures TrimStart(s) != [] ==> !IsJsSpace(TrimStart(s)[0])
  {
    if s != [] && IsJsSpace(s[0]) {
      TrimStartBlank(s[1..]);
      assert forall i | 1 <= i < |s| :: s[i] == s[1..][i - 1];
    }
  }

  lemma {:induction false} TrimEndEmpty(s: string)
    requires s == [] || !IsJsSpace(s[0])
    ensures TrimEnd(s) == [] <==> s == []
  {
    if s != [] && IsJsSpace(s[|s| - 1]) {
      TrimEndEmpty(s[..|s| - 1]);
    }
  }

  /** The trimmed text is empty exactly when every character is whitespace. */
  lemma TrimEmptyIffBlank(s: string)
    ensures JsTrim(s) == "" <==> forall i | 0 <= i < |s| :: IsJsSpace(s[i])
  {
    TrimStartBlank(s);
    TrimEndEmpty(TrimStart(s));
  }

  // ---------------------------------------------------------------------------
  // Validation
  // ---------------------------------------------------------------------------

  /** Each check of `validateForm`: an empty string is falsy in `!value`. */
  predicate Fails(form: FormData, f: Field) {
    match f
    case SkillNameField => form.skillName == ""
    case LevelField => form.level == ""
    case MonthsField => form.months < 0
    case DescriptionField => JsTrim(form.description) == ""
  }

  function Message(f: Field): string {
    match f
    case SkillNameField => "Skill is required"
    case LevelField => "Level is required"
    case MonthsField => "Months must be 0 or greater"
    case DescriptionField => "Description is required"
  }

  /** The errors a form has: one message per failing field. */
  function ErrorsOf(form: FormData): (errors: map<Field, string>)
    ensures forall f :: f in errors <==> Fails(form, f)
    ensures forall f | f in errors :: errors[f] == Message(f)
  {
    map f | f in AllFields && Fails(form, f) :: Message(f)
  }

  /** `validateForm`: builds the errors one check at a time and reports whether none
      was recorded. */
  method ValidateForm(form: FormData) returns (valid: bool, newErrors: map<Field, string>)
    ensures newErrors == ErrorsOf(form)
    ensures valid <==> newErrors == map[]
  {
    newErrors := map[];
    if form.skillName == "" {
      newErrors := newErrors[SkillNameField := Message(SkillNameField)];
    }
    if form.level == "" {
      newErrors := newErrors[LevelField := Message(LevelField)];
    }
    if form.months < 0 {
      newErrors := newErrors[MonthsField := Message(MonthsField)];
    }
    if JsTrim(form.description) == "" {
      newErrors := newErrors[DescriptionField := Message(DescriptionField)];
    }
    valid := newErrors.Keys == {};
    SameErrors(form, newErrors);
  }

  /** A map with a message for exactly the failing fields is the form's errors. */
  lemma SameErrors(form: FormData, errors: map<Field, string>)
    requires SkillNameField in errors <==> Fails(form, SkillNameField)
    requires LevelField in errors <==> Fails(form, LevelField)
    requires MonthsField in errors <==> Fails(form, MonthsField)
    requires DescriptionField in errors <==> Fails(form, DescriptionField)
    requires forall f | f in errors :: errors[f] == Message(f)
    ensures errors == ErrorsOf(form)
  {
    forall f
      ensures f in errors <==> f in ErrorsOf(form)
    {
      match f
      case SkillNameField =>
      case LevelField =>
      case MonthsField =>
      case DescriptionField =>
    }
    assert errors.Keys == ErrorsOf(form).Keys;
  }

  /** A form has no errors exactly when its name and level are set, its months are not
      negative and its description has a character that is not whitespace. */
  lemma NoErrorsIffValid(form: FormData)
    ensures ErrorsOf(form) == map[] <==>
      (form.skillName != "" && form.level != "" && form.months >= 0 &&
       exists i | 0 <= i < |form.description| :: !IsJsSpace(form.description[i]))
  {
    TrimEmptyIffBlank(form.description);
    var e := ErrorsOf(form);
    if e == map[] {
      assert SkillNameField !in e && LevelField !in e && MonthsField !in e && DescriptionField !in e;
    } else {
      var f :| f in e;
      assert Fails(form, f);
    }
  }

  /** `setErrors(newErrors)`: every recorded message becomes the new state. */
  function AsState(errors: map<Field, string>): (state: ErrorState)
    ensures state.Keys == errors.Keys
    ensures forall f | f in state :: state[f] == Some(errors[f])
  {
    map f | f in errors :: Some(errors[f])
  }

  /** `handleSubmit`: the form data is handed to `onSubmit` only when it validates. */
  method HandleSubmit(form: FormData) returns (submitted: Option<FormData>, errors: ErrorState)
    ensures submitted == Some(form) <==> ErrorsOf(form) == map[]
    ensures submitted == None <==> ErrorsOf(form) != map[]
    ensures errors == AsState(ErrorsOf(form))
  {
    var valid, newErrors := ValidateForm(form);
    errors := AsState(newErrors);
    if valid {
      submitted := Some(form);
    } else {
      submitted := None;
    }
  }

  /** The starting form fails on its empty description alone. */
  lemma InitialFormFailsOnDescription()
    ensures ErrorsOf(InitialForm) == map[DescriptionField := "Description is required"]
  {
    TrimEmptyIffBlank(InitialForm.description);
    assert ErrorsOf(InitialForm).Keys == {DescriptionField};
  }

  // ---------------------------------------------------------------------------
  // Field updates
  // ---------------------------------------------------------------------------

  /** An `updateField(field, value)` call, the value typed by its field. */
  datatype Update = SetSkillName(name: string) | SetLevel(level: string) | SetMonths(months: int)
                  | SetDescription(text: string)

  function FieldOf(u: Update): Field {
    match u
    case SetSkillName(_) => SkillNameField
    case SetLevel(_) => LevelField
    case SetMonths(_) => MonthsField
    case SetDescription(_) => DescriptionField
  }

  datatype Value = Text(s: string) | Number(n: int)

  /** A field's current value. */
  function Get(form: FormData, f: Field): Value {
    match f
    case SkillNameField => Text(form.skillName)
    case LevelField => Text(form.level)
    case MonthsField => Number(form.months)
    case DescriptionField => Text(form.description)
  }

  function ValueOf(u: Update): Value {
    match u
    case SetSkillName(name) => Text(name)
    case SetLevel(level) => Text(level)
    case SetMonths(months) => Number(months)
    case SetDescription(text) => Text(text)
  }

  /** `errors[field]` is truthy: a message that is not empty. */
  predicate HasError(errors: ErrorState, f: Field) {
    f in errors && errors[f].Some? && errors[f].value != ""
  }

  /** `updateField`: the field takes the value; its error is reset to `undefined` if one
      was shown. */
  function UpdateField(form: FormData, errors: ErrorState, u: Update): (FormData, ErrorState) {
    var form' := match u
      case SetSkillName(name) => form.(skillName := name)
      case SetLevel(level) => form.(level := level)
      case SetMonths(months) => form.(months := months)
      case SetDescription(text) => form.(description := text);
    var f := FieldOf(u);
    (form', if HasError(errors, f) then errors[f := None] else errors)
  }

  /** Only the named field changes, and it takes the given value; only that field's
      error can change, and it is cleared exactly when it was shown. */
  lemma UpdateFieldFrame(form: FormData, errors: ErrorState, u: Update, g: Field)
    ensures var (form', errors') := UpdateField(form, errors, u);
      Get(form', FieldOf(u)) == ValueOf(u) &&
      (g != FieldOf(u) ==> Get(form', g) == Get(form, g)) &&
      (g != FieldOf(u) ==> (g in errors' <==> g in errors) && (g in errors ==> errors'[g] == errors[g])) &&
      !HasError(errors', FieldOf(u)) &&
      (HasError(errors, FieldOf(u)) ==> errors'[FieldOf(u)] == None) &&
      (!HasError(errors, FieldOf(u)) ==> errors' == errors)
  {
  }

  // ---------------------------------------------------------------------------
  // Months input: `/^0+(?=\d)/` removal, Number.parseInt and `|| 0`
  // ---------------------------------------------------------------------------

  function LeadingZeros(s: string): (k: nat)
    ensures k <= |s|
    ensures forall i | 0 <= i < k :: s[i] == '0'
    ensures k < |s| ==> s[k] != '0'
  {
    if s != [] && s[0] == '0' then 1 + LeadingZeros(s[1..]) else 0
  }

  /** How many characters the regular expression removes: the longest run of leading
      zeros that is still followed by a digit. */
  function ZerosRemoved(s: string): (k: nat)
    ensures k <= |s|
    ensures forall i | 0 <= i < k :: s[i] == '0'
    ensures k > 0 ==> k < |s| && IsDigit(s[k])
  {
    var z := LeadingZeros(s);
    if z < |s| && IsDigit(s[z]) then z else if z > 0 then z - 1 else 0
  }

  function Sanitize(s: string): string {
    s[ZerosRemoved(s)..]
  }

  /** The sanitised text is the input minus some leading zeros, and no zero that a
      digit follows is left at its front, so sanitising again changes nothing. */
  lemma SanitizeRemovesAllMatches(s: string)
    ensures exists k | 0 <= k <= |s| :: Sanitize(s) == s[k..] && forall i | 0 <= i < k :: s[i] == '0'
    ensures var r := Sanitize(s); !(|r| >= 2 && r[0] == '0' && IsDigit(r[1]))
    ensures Sanitize(Sanitize(s)) == Sanitize(s)
  {
    var k := ZerosRemoved(s);
    var r := s[k..];
    assert Sanitize(s) == s[k..];
    var z := LeadingZeros(s);
    assert LeadingZeros(r) <= 1 by {
      if |r| >= 2 && r[0] == '0' {
        assert r[1..] != [] && r[1..][0] != '0';
      }
    }
    assert ZerosRemoved(r) == 0;
  }

  /** The run of digits at the front. */
  function DigitPrefix(s: string): (p: string)
    ensures AllDigits(p) && |p| <= |s| && p == s[..|p|]
    ensures s != [] && IsDigit(s[0]) <==> p != []
  {
    if s != [] && IsDigit(s[0]) then [s[0]] + DigitPrefix(s[1..]) else []
  }

  function ParseDigits(s: string): Option<int> {
    var p := DigitPrefix(s);
    if p == [] then None else Some(DigitsValue(p))
  }

  /** `Number.parseInt(s)` in base 10: leading whitespace, an optional sign, then the
      digits up to the first other character; `None` stands for NaN. */
  function JsParseInt(s: string): Option<int> {
    var t := TrimStart(s);
    if t != [] && t[0] == '-' then
      match ParseDigits(t[1..])
      case Some(v) => Some(-v)
      case None => None
    else if t != [] && t[0] == '+' then ParseDigits(t[1..])
    else ParseDigits(t)
  }

  /** The months the input reports: NaN and 0 are both falsy, so both give 0. */
  function MonthsFromInput(raw: string): (months: int)
    ensures JsParseInt(Sanitize(raw)) == None ==> months == 0
    ensures JsParseInt(Sanitize(raw)).Some? ==> months == JsParseInt(Sanitize(raw)).value
  {
    match JsParseInt(Sanitize(raw))
    case Some(v) => if v == 0 then 0 else v
    case None => 0
  }

  lemma OneZeroLess(t: string)
    requires t != [] && IsDigit(t[0])
    ensures JsParseInt("0" + t) == JsParseInt(t)
  {
    var s := "0" + t;
    assert TrimStart(s) == s;
    assert TrimStart(t) == t;
    assert s[1..] == t;
    assert DigitPrefix(s) == "0" + DigitPrefix(t);
    LeadingZeroValue(DigitPrefix(t));
  }

  lemma {:induction false} DropZeros(s: string, k: nat)
    requires k < |s| && IsDigit(s[k])
    requires forall i | 0 <= i < k :: s[i] == '0'
    ensures JsParseInt(s) == JsParseInt(s[k..])
    decreases k
  {
    if k > 0 {
      var t := s[1..];
      assert forall i | 0 <= i < k - 1 :: t[i] == s[i + 1];
      DropZeros(t, k - 1);
      assert t[k - 1..] == s[k..];
      OneZeroLess(t);
      assert s == "0" + t;
    }
  }

  /** Removing the zeros does not change what `parseInt` reads. */
  lemma SanitizeKeepsParse(s: string)
    ensures JsParseInt(Sanitize(s)) == JsParseInt(s)
  {
    var k := ZerosRemoved(s);
    if k > 0 {
      DropZeros(s, k);
    } else {
      assert Sanitize(s) == s;
    }
  }

  lemma LeadingZerosDropped()
    ensures MonthsFromInput("007") == 7
  {
    assert LeadingZeros("007") == 2 by {
      assert "007"[1..] == "07" && "07"[1..] == "7";
    }
    assert Sanitize("007") == "7";
    assert DigitPrefix("7") == "7" by { assert "7"[1..] == ""; }
  }

  lemma LoneZeroKept()
    ensures MonthsFromInput("0") == 0
  {
    assert LeadingZeros("0") == 1 by { assert "0"[1..] == ""; }
    assert Sanitize("0") == "0";
  }

  lemma EmptyInputIsZero()
    ensures MonthsFromInput("") == 0
  {
    assert Sanitize("") == "";
    assert TrimStart("") == "";
  }

  lemma LettersInputIsZero()
    ensures MonthsFromInput("abc") == 0
  {
    assert LeadingZeros("abc") == 0;
    assert Sanitize("abc") == "abc";
    assert !IsJsSpace('a');
    assert TrimStart("abc") == "abc";
    assert DigitPrefix("abc") == [];
  }

  lemma NegativeMonthsPass()
    ensures MonthsFromInput("-3") == -3
  {
    assert Sanitize("-3") == "-3";
    assert TrimStart("-3") == "-3";
    assert "-3"[1..] == "3";
    assert DigitPrefix("3") == "3" by { assert "3"[1..] == ""; }
  }
}
