/**
 * The field validators of scanomatic/models/factories/scanning_factory.py that decide from the
 * field values alone: e-mail, description, the character set of the project name, and the
 * pinning formats. Each returns True (`Valid`) or the field's enum member (`Invalid`).
 */
module ScanningValidators {
  import opened Wrappers
  import opened PyValues
  import opened ModelFactory

  /** The members of `FIELD_TYPES` the validators return. */
  datatype Field = ProjectName | Description | Email | PinningFormats

  /** What a validator returns, or the AttributeError it raises. */
  datatype Validation = Valid | Invalid(field: Field) | RaisesAttributeError

  // ---------------------------------------------------------------------------------------
  // _validate_email
  // ---------------------------------------------------------------------------------------

  predicate NoAt(s: string) {
    forall i :: 0 <= i < |s| ==> s[i] != '@'
  }

  /**
   * `re.match(r'[^@]+@[^@]+\.[^@]+', s)` succeeds: some prefix of s is a non-empty run without
   * '@', an '@', a non-empty run without '@', a '.', and one character other than '@'. Only the
   * start is anchored, so anything may follow.
   */
  ghost predicate EmailPattern(s: string) {
    exists at, dot :: Decomposes(s, at, dot)
  }

  /** The '@' at `at` and the '.' at `dot` split a prefix of s as the pattern requires. */
  predicate Decomposes(s: string, at: int, dot: int) {
    1 <= at && at + 1 < dot && dot + 1 < |s| &&
    NoAt(s[..at]) && s[at] == '@' && NoAt(s[at + 1..dot]) && s[dot] == '.' && s[dot + 1] != '@'
  }

  /** The first '@' at or after `from`, or |s| when there is none. */
  function IndexOfAt(s: string, from: nat): (r: nat)
    requires from <= |s|
    ensures from <= r <= |s|
    ensures forall i :: from <= i < r ==> s[i] != '@'
    ensures r < |s| ==> s[r] == '@'
    decreases |s| - from
  {
    if from == |s| || s[from] == '@' then from else IndexOfAt(s, from + 1)
  }

  /** Some position in [from, end) holds a '.' followed by a character other than '@'. */
  function DotFollowed(s: string, from: nat, end: nat): (b: bool)
    requires end <= |s|
    ensures b <==> exists j :: from <= j < end && s[j] == '.' && j + 1 < |s| && s[j + 1] != '@'
    decreases end - from
  {
    if from >= end then false
    else (s[from] == '.' && from + 1 < |s| && s[from + 1] != '@') || DotFollowed(s, from + 1, end)
  }

  /**
   * The regular-expression match, the way a backtracking matcher settles it: the first '@'
   * must come after at least one character, and the run up to the next '@' must hold, after
   * its first character, a '.' with a non-'@' character after it.
   */
  function EmailMatch(s: string): (b: bool)
    ensures b <==> EmailPattern(s)
  {
    EmailMatchIsPattern(s);
    var at := IndexOfAt(s, 0);
    at >= 1 && at + 2 <= |s| && DotFollowed(s, at + 2, IndexOfAt(s, at + 1))
  }

  /** Every decomposition the pattern admits is found by the scan. */
  lemma PatternFoundByScan(s: string)
    requires EmailPattern(s)
    ensures var at := IndexOfAt(s, 0);
      at >= 1 && at + 2 <= |s| && DotFollowed(s, at + 2, IndexOfAt(s, at + 1))
  {
    var a, d :| Decomposes(s, a, d);
    AtNotBefore(s, 0, a);
    assert IndexOfAt(s, 0) == a;
    AtNotBefore(s, a + 1, d);
    assert DotFollowed(s, a + 2, IndexOfAt(s, a + 1)) by {
      assert a + 2 <= d < IndexOfAt(s, a + 1) && s[d] == '.' && d + 1 < |s| && s[d + 1] != '@';
    }
  }

  /** Without an '@' in s[lo..hi], the first '@' from lo is at or after hi. */
  lemma {:induction false} AtNotBefore(s: string, lo: nat, hi: nat)
    requires lo <= hi <= |s| && NoAt(s[lo..hi])
    ensures hi <= IndexOfAt(s, lo)
    decreases hi - lo
  {
    if lo < hi {
      assert s[lo..hi][0] == s[lo];
      assert s[lo + 1..hi] == s[lo..hi][1..];
      AtNotBefore(s, lo + 1, hi);
    }
  }

  /** What the scan finds is a decomposition the pattern admits. */
  lemma ScanFindsPattern(s: string)
    requires var at := IndexOfAt(s, 0);
      at >= 1 && at + 2 <= |s| && DotFollowed(s, at + 2, IndexOfAt(s, at + 1))
    ensures EmailPattern(s)
  {
    var at := IndexOfAt(s, 0);
    var next := IndexOfAt(s, at + 1);
    var d :| at + 2 <= d < next && s[d] == '.' && d + 1 < |s| && s[d + 1] != '@';
    assert Decomposes(s, at, d);
  }

  /** The scan finds a match exactly when one of the pattern's decompositions exists. */
  lemma EmailMatchIsPattern(s: string)
    ensures var at := IndexOfAt(s, 0);
      (at >= 1 && at + 2 <= |s| && DotFollowed(s, at + 2, IndexOfAt(s, at + 1))) <==> EmailPattern(s)
  {
    var at := IndexOfAt(s, 0);
    if EmailPattern(s) {
      PatternFoundByScan(s);
    }
    if at >= 1 && at + 2 <= |s| && DotFollowed(s, at + 2, IndexOfAt(s, at + 1)) {
      ScanFindsPattern(s);
    }
  }

  /** `_validate_email`: a string that is empty or matches the pattern. */
  function ValidateEmail(email: Value): (r: Validation)
    ensures r == Valid <==> email.PyStr? && (email.s == "" || EmailPattern(email.s))
    ensures r != Valid ==> r == Invalid(Email)
  {
    if email.PyStr? && (email.s == "" || EmailMatch(email.s)) then Valid else Invalid(Email)
  }

  /** An address of the usual shape passes; one without a dot after the '@' does not. */
  lemma EmailExamples()
    ensures ValidateEmail(PyStr("a@b.c")) == Valid
    ensures ValidateEmail(PyStr("a@b")) == Invalid(Email)
  {
    assert Decomposes("a@b.c", 1, 3);
    assert !EmailPattern("a@b");
  }

  // ---------------------------------------------------------------------------------------
  // _validate_description
  // ---------------------------------------------------------------------------------------

  /** `_validate_description`: any string. */
  function ValidateDescription(description: Value): (r: Validation)
    ensures r == Valid <==> description.PyStr?
    ensures r != Valid ==> r == Invalid(Description)
  {
    if description.PyStr? then Valid else Invalid(Description)
  }

  // ---------------------------------------------------------------------------------------
  // _validate_projectName
  // ---------------------------------------------------------------------------------------

  /** `string.letters + string.digits + "_"` (ASCII letters). */
  predicate AllowedChar(c: char) {
    ('a' <= c <= 'z') || ('A' <= c <= 'Z') || ('0' <= c <= '9') || c == '_'
  }

  /** `len(tuple(c for c in name if c in allowed))`. */
  function CountAllowed(name: string): (n: nat)
    ensures n <= |name|
    ensures n == |name| <==> forall i :: 0 <= i < |name| ==> AllowedChar(name[i])
  {
    if |name| == 0 then 0
    else
      var rest := CountAllowed(name[1..]);
      assert forall i :: 1 <= i < |name| ==> name[i] == name[1..][i - 1];
      (if AllowedChar(name[0]) then 1 else 0) + rest
  }

  /**
   * `_validate_projectName`. `pathCheck` is what `os.path.isdir(os.path.join(directory, name))`
   * gives, None where it raises: a name is valid only when no such directory exists and all its
   * characters are letters, digits or '_'.
   */
  function ValidateProjectName(name: string, pathCheck: Option<bool>): (r: Validation)
    ensures r == Valid <==> pathCheck == Some(false) && forall i :: 0 <= i < |name| ==> AllowedChar(name[i])
    ensures r != Valid ==> r == Invalid(ProjectName)
  {
    if pathCheck != Some(false) then Invalid(ProjectName)
    else if |name| != CountAllowed(name) then Invalid(ProjectName)
    else Valid
  }

  // ---------------------------------------------------------------------------------------
  // _validate_pinningFormats
  // ---------------------------------------------------------------------------------------

  /**
   * `_validate_pinningFormats` as written: its failure branch reads `FIELD_TYPES.pinningFormarts`,
   * a member the enum does not have, and so raises AttributeError instead of returning.
   */
  function ValidatePinningFormatsAsWritten(pinningFormats: Value): (r: Validation)
    ensures r == Valid <==> IsPinningFormats(pinningFormats)
    ensures r != Valid ==> r.RaisesAttributeError?
  {
    if IsPinningFormats(pinningFormats) then Valid else RaisesAttributeError
  }

  /** A single pinning of (0, 1) is invalid, and the validator as written raises on it rather than naming the field. */
  lemma PinningFormatsAsWrittenRaises()
    ensures var formats := PyTuple([PyTuple([PyInt(0), PyInt(1)])]);
      !IsPinningFormats(formats) && ValidatePinningFormatsAsWritten(formats).RaisesAttributeError?
  {
    var formats := PyTuple([PyTuple([PyInt(0), PyInt(1)])]);
    assert !IsPinningFormat(formats.items[0]);
  }

  /** `_validate_pinningFormats` as intended: True, or the pinningFormats member. */
  function ValidatePinningFormats(pinningFormats: Value): (r: Validation)
    ensures r == Valid <==> IsPinningFormats(pinningFormats)
    ensures r != Valid ==> r == Invalid(PinningFormats)
  {
    if IsPinningFormats(pinningFormats) then Valid else Invalid(PinningFormats)
  }

  // ---------------------------------------------------------------------------------------
  // get_invalid over these validators
  // ---------------------------------------------------------------------------------------

  /** `get_invalid` restricted to the four validators above: the set of results that are not True. */
  function InvalidFields(email: Value, description: Value, name: string, pathCheck: Option<bool>,
                         pinningFormats: Value): (fields: set<Field>)
    ensures Email in fields <==> ValidateEmail(email) != Valid
    ensures Description in fields <==> ValidateDescription(description) != Valid
    ensures ProjectName in fields <==> ValidateProjectName(name, pathCheck) != Valid
    ensures PinningFormats in fields <==> !IsPinningFormats(pinningFormats)
  {
    (if ValidateEmail(email).Invalid? then {ValidateEmail(email).field} else {}) +
    (if ValidateDescription(description).Invalid? then {ValidateDescription(description).field} else {}) +
    (if ValidateProjectName(name, pathCheck).Invalid? then {ValidateProjectName(name, pathCheck).field} else {}) +
    (if ValidatePinningFormats(pinningFormats).Invalid? then {ValidatePinningFormats(pinningFormats).field} else {})
  }

  /**
   * `get_invalid` as written, over the same four validators: `set(...)` runs every validator
   * before anything is returned, so the AttributeError of the misspelt member escapes whenever
   * the pinning formats are invalid (None); otherwise the fields are those of `InvalidFields`,
   * without PinningFormats.
   */
  function InvalidFieldsAsWritten(email: Value, description: Value, name: string, pathCheck: Option<bool>,
                                  pinningFormats: Value): (r: Option<set<Field>>)
    ensures r.None? <==> ValidatePinningFormatsAsWritten(pinningFormats).RaisesAttributeError?
    ensures r.None? <==> !IsPinningFormats(pinningFormats)
    ensures r.Some? ==>
      (Email in r.value <==> ValidateEmail(email) != Valid) &&
      (Description in r.value <==> ValidateDescription(description) != Valid) &&
      (ProjectName in r.value <==> ValidateProjectName(name, pathCheck) != Valid) &&
      PinningFormats !in r.value
  {
    if ValidatePinningFormatsAsWritten(pinningFormats).RaisesAttributeError? then None
    else Some(InvalidFields(email, description, name, pathCheck, pinningFormats))
  }

  /**
   * With a single pinning of (0, 1) and every other field valid, `get_invalid` as written raises,
   * while the intended one reports exactly the pinningFormats field.
   */
  lemma GetInvalidAsWrittenRaises()
    ensures var formats := PyTuple([PyTuple([PyInt(0), PyInt(1)])]);
      InvalidFieldsAsWritten(PyStr(""), PyStr(""), "p", Some(false), formats).None? &&
      InvalidFields(PyStr(""), PyStr(""), "p", Some(false), formats) == {PinningFormats}
  {
    var formats := PyTuple([PyTuple([PyInt(0), PyInt(1)])]);
    PinningFormatsAsWrittenRaises();
    assert AllowedChar("p"[0]);
    var fields := InvalidFields(PyStr(""), PyStr(""), "p", Some(false), formats);
    assert forall f :: f in fields <==> f == PinningFormats;
  }
}
