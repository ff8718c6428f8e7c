/** The input validators of security.py: phone, VIN, numeric and e-mail
    checks, input trimming and VIN normalisation.  Each regular expression of
    the source is written out as a predicate over the characters of the
    string; Python's `$` also matches just before a final newline, so the
    anchored patterns accept one trailing '\n' beyond what they spell. */
module Security {
  import opened Wrappers
  import opened Text

  /** The placeholder the user interface stores for "no VIN". */
  const NoVinSentinel: string := "No VIN provided"

  // ---------------------------------------------------------------- phone

  /** One character of the class `[\d\s\-\+\(\)]`. */
  predicate PhoneChar(c: char) {
    IsDigit(c) || IsSpace(c) || c == '-' || c == '+' || c == '(' || c == ')'
  }

  predicate AllPhoneChars(s: string) {
    forall i :: 0 <= i < |s| ==> PhoneChar(s[i])
  }

  /** `re.match(r'^[\d\s\-\+\(\)]{7,15}$', s)`: 7 to 15 phone characters, or
      16 whose last is the newline that `$` may precede. */
  predicate PhonePattern(s: string) {
    AllPhoneChars(s) && (7 <= |s| <= 15 || (|s| == 16 && s[15] == '\n'))
  }

  /** validate_phone: false for None or "", otherwise the pattern. */
  function ValidatePhone(phone: Option<string>): (ok: bool)
    ensures !Truthy(phone) ==> !ok
    ensures ok ==> 7 <= |phone.value| <= 16 && AllPhoneChars(phone.value)
    ensures Truthy(phone) && AllPhoneChars(phone.value) && 7 <= |phone.value| <= 15 ==> ok
  {
    if !Truthy(phone) then false else PhonePattern(phone.value)
  }

  /** Away from the trailing-newline case the check is exactly "7 to 15
      characters, each a digit, whitespace, '-', '+', '(' or ')'". */
  lemma ValidatePhoneExact(s: string)
    requires !(|s| == 16 && s[15] == '\n')
    ensures ValidatePhone(Some(s)) <==> 7 <= |s| <= 15 && AllPhoneChars(s)
  {
  }

  /** A 16-character value is accepted when it ends in a newline. */
  lemma ValidatePhoneTrailingNewline()
    ensures ValidatePhone(Some("555123456789012\n"))
    ensures !ValidatePhone(Some("5551234567890123"))
  {
    var s := "555123456789012\n";
    assert forall i :: 0 <= i < |s| ==> PhoneChar(s[i]);
  }

  // ---------------------------------------------------------------- VIN

  /** One character of `[A-HJ-NPR-Z0-9]`: upper-case letters except I, O, Q,
      and digits (the ISO 3779 alphabet). */
  predicate VinChar(c: char) {
    ('A' <= c <= 'H') || ('J' <= c <= 'N') || c == 'P' || ('R' <= c <= 'Z') || IsDigit(c)
  }

  /** What validate_vin demands of the cleaned value. */
  predicate VinShape(clean: string) {
    (|clean| == 0 || |clean| == 7 || |clean| == 13 || |clean| == 17)
    && forall i :: 0 <= i < |clean| ==> VinChar(clean[i])
  }

  /** `''.join(vin.split()).upper()`. */
  function CleanVin(s: string): (r: string)
    ensures forall i :: 0 <= i < |r| ==> !IsSpace(r[i]) && !IsLowerLetter(r[i])
  {
    Upper(RemoveSpaces(s))
  }

  /** validate_vin: true for None, "" and the sentinel; otherwise the
      whitespace-free upper-cased value must have length 0, 7, 13 or 17 and
      use only VIN characters. */
  function ValidateVin(vin: Option<string>): (ok: bool)
    ensures !Truthy(vin) || vin.value == NoVinSentinel ==> ok
    ensures Truthy(vin) && vin.value != NoVinSentinel ==> (ok <==> VinShape(CleanVin(vin.value)))
  {
    if !Truthy(vin) || vin.value == NoVinSentinel then true
    else VinShape(CleanVin(vin.value))
  }

  /** A cleaned length outside {0, 7, 13, 17} is rejected. */
  lemma VinBadLengthRejected(s: string)
    requires s != "" && s != NoVinSentinel
    requires var n := |CleanVin(s)|; n != 0 && n != 7 && n != 13 && n != 17
    ensures !ValidateVin(Some(s))
  {
  }

  /** No upper-cased string is the sentinel, which has lower-case letters. */
  lemma UpperIsNotSentinel(s: string)
    ensures Upper(s) != NoVinSentinel
  {
    if |s| == |NoVinSentinel| {
      assert Upper(s)[1] != NoVinSentinel[1];
    }
  }

  /** Cleaning ignores whether the input was upper-cased first. */
  lemma CleanVinUpper(s: string)
    ensures CleanVin(Upper(s)) == CleanVin(s)
  {
    RemoveSpacesUpper(s);
    UpperIdempotent(RemoveSpaces(s));
  }

  /** Upper-casing the input never changes the verdict, except on the
      sentinel, whose upper-cased form is an ordinary (invalid) value. */
  lemma {:induction false} VinCaseInsensitive(s: string)
    requires s != NoVinSentinel
    ensures ValidateVin(Some(Upper(s))) == ValidateVin(Some(s))
  {
    UpperIsNotSentinel(s);
    CleanVinUpper(s);
    assert s == "" <==> Upper(s) == "";
  }

  lemma SentinelNotCaseInsensitive()
    ensures ValidateVin(Some(NoVinSentinel))
    ensures !ValidateVin(Some(Upper(NoVinSentinel)))
  {
    var u := Upper(NoVinSentinel);
    UpperIsNotSentinel(NoVinSentinel);
    assert u[1] == 'O' && !IsSpace(u[1]);
    var r := RemoveSpaces(u);
    assert 'O' in r;
    assert u != "";
    CleanVinHas(u, 'O');
  }

  /** A non-whitespace character of the input survives cleaning upper-cased. */
  lemma CleanVinHas(s: string, c: char)
    requires c in s && !IsSpace(c)
    ensures UpperChar(c) in CleanVin(s)
  {
    var r := RemoveSpaces(s);
    var i :| 0 <= i < |s| && s[i] == c;
    assert c in r;
    var j :| 0 <= j < |r| && r[j] == c;
    assert CleanVin(s)[j] == UpperChar(c);
  }

  /** Inserting a whitespace character anywhere never changes the verdict
      (unless either string is the sentinel, which is matched verbatim). */
  lemma {:induction false} VinWhitespaceInsensitive(a: string, b: string, w: char)
    requires IsSpace(w)
    requires a + b != NoVinSentinel && a + [w] + b != NoVinSentinel
    ensures ValidateVin(Some(a + [w] + b)) == ValidateVin(Some(a + b))
  {
    RemoveSpacesInsert(a, b, w);
    if a + b == "" {
      assert CleanVin(a + [w] + b) == Upper([]);
    }
  }

  lemma {:induction false} RemoveSpacesInsert(a: string, b: string, w: char)
    requires IsSpace(w)
    ensures RemoveSpaces(a + [w] + b) == RemoveSpaces(a + b)
  {
    RemoveSpacesAppend(a, [w] + b);
    RemoveSpacesAppend([w], b);
    RemoveSpacesAppend(a, b);
    assert a + [w] + b == a + ([w] + b);
    assert RemoveSpaces([w]) == [];
    assert [] + RemoveSpaces(b) == RemoveSpaces(b);
  }

  /** A character that is I, O or Q in either case, or neither whitespace nor
      an ASCII letter or digit, makes any non-empty non-sentinel value invalid. */
  lemma {:induction false} VinRejectsForbiddenChar(s: string, i: int)
    requires s != NoVinSentinel && 0 <= i < |s|
    requires s[i] in "IOQioq" || !(IsSpace(s[i]) || IsDigit(s[i]) || IsUpperLetter(s[i]) || IsLowerLetter(s[i]))
    ensures !ValidateVin(Some(s))
  {
    assert s[i] in s && !IsSpace(s[i]);
    CleanVinHas(s, s[i]);
    assert !VinChar(UpperChar(s[i]));
  }

  // ---------------------------------------------------------------- trimming

  /** sanitize_input: None passes through, a string is stripped. */
  function SanitizeInput(text: Option<string>): (r: Option<string>)
    ensures r.None? <==> text.None?
    ensures r.Some? ==> |r.value| <= |text.value|
    ensures r.Some? && r.value != "" ==> !IsSpace(r.value[0]) && !IsSpace(r.value[|r.value| - 1])
  {
    match text
    case None => None
    case Some(s) => Some(Strip(s))
  }

  /** sanitize_input applied twice is applied once. */
  lemma SanitizeIdempotent(text: Option<string>)
    ensures SanitizeInput(SanitizeInput(text)) == SanitizeInput(text)
  {
    if text.Some? {
      StripIdempotent(text.value);
    }
  }

  // ---------------------------------------------------------------- numeric

  /** The outcome of Python's `float(value)`: a number, or a ValueError or
      TypeError (non-numeric text, None). */
  datatype Numeric = Number(x: real) | NotNumeric

  /** validate_numeric: the value parses and lies within the bounds given. */
  function ValidateNumeric(value: Numeric, minVal: Option<real>, maxVal: Option<real>): (ok: bool)
    ensures ok <==> value.Number?
                    && (minVal.None? || minVal.value <= value.x)
                    && (maxVal.None? || value.x <= maxVal.value)
  {
    match value
    case NotNumeric => false
    case Number(num) =>
      if minVal.Some? && num < minVal.value then false
      else if maxVal.Some? && num > maxVal.value then false
      else true
  }

  // ---------------------------------------------------------------- e-mail

  predicate NoAtNoSpace(s: string) {
    forall i :: 0 <= i < |s| ==> s[i] != '@' && !IsSpace(s[i])
  }

  /** `[^@\s]+\.[^@\s]+`: no '@' or whitespace, and a '.' with at least one
      character on each side. */
  predicate DomainPart(d: string) {
    NoAtNoSpace(d) && exists i :: 0 < i < |d| - 1 && d[i] == '.'
  }

  /** `[^@\s]+@[^@\s]+\.[^@\s]+` matching the whole string. */
  predicate EmailPattern(s: string) {
    exists a :: 0 < a < |s| && s[a] == '@' && NoAtNoSpace(s[..a]) && DomainPart(s[a + 1..])
  }

  /** The accepted addresses described on the whole string: no whitespace,
      exactly one '@', not first, and a '.' after it that is neither right
      after the '@' nor the last character. */
  predicate EmailShape(s: string) {
    (forall i :: 0 <= i < |s| ==> !IsSpace(s[i]))
    && exists a :: 1 <= a < |s| && s[a] == '@'
                   && (forall i :: 0 <= i < |s| && i != a ==> s[i] != '@')
                   && (exists k :: a + 1 < k < |s| - 1 && s[k] == '.')
  }

  /** The pattern matches exactly the strings of that shape. */
  lemma EmailPatternExact(s: string)
    ensures EmailPattern(s) <==> EmailShape(s)
  {
    if EmailPattern(s) {
      var a :| 0 < a < |s| && s[a] == '@' && NoAtNoSpace(s[..a]) && DomainPart(s[a + 1..]);
      var d := s[a + 1..];
      assert forall i :: 0 <= i < a ==> s[..a][i] == s[i];
      assert forall i :: a < i < |s| ==> d[i - a - 1] == s[i];
      var j :| 0 < j < |d| - 1 && d[j] == '.';
      assert s[a + 1 + j] == '.';
    }
    if EmailShape(s) {
      var a :| 1 <= a < |s| && s[a] == '@'
               && (forall i :: 0 <= i < |s| && i != a ==> s[i] != '@')
               && (exists k :: a + 1 < k < |s| - 1 && s[k] == '.');
      var k :| a + 1 < k < |s| - 1 && s[k] == '.';
      var d := s[a + 1..];
      assert forall i :: 0 <= i < a ==> s[..a][i] == s[i];
      assert forall i :: 0 <= i < |d| ==> d[i] == s[a + 1 + i];
      assert d[k - a - 1] == '.';
      assert DomainPart(d);
    }
  }

  /** validate_email: false for None or "", otherwise the anchored pattern
      (with the newline that `$` may precede). */
  function ValidateEmail(email: Option<string>): (ok: bool)
    ensures !Truthy(email) ==> !ok
    ensures Truthy(email) ==>
              (ok <==> var s := email.value;
                       EmailShape(s) || (s[|s| - 1] == '\n' && EmailShape(s[..|s| - 1])))
  {
    if !Truthy(email) then false
    else
      var s := email.value;
      EmailPatternExact(s);
      EmailPatternExact(s[..|s| - 1]);
      EmailPattern(s) || (s[|s| - 1] == '\n' && EmailPattern(s[..|s| - 1]))
  }

  /** An ordinary address passes. */
  lemma EmailAccepted()
    ensures ValidateEmail(Some("jane@example.com"))
  {
    var s := "jane@example.com";
    var d := "example.com";
    assert d[7] == '.';
    assert DomainPart(d);
    assert s[4] == '@' && s[..4] == "jane" && s[5..] == d;
    assert EmailPattern(s);
  }

  /** An address without '@' fails. */
  lemma EmailWithoutAtRejected()
    ensures !ValidateEmail(Some("jane.example.com"))
  {
    var t := "jane.example.com";
    assert forall i :: 0 <= i < |t| ==> t[i] != '@';
  }

  /** An address whose domain has no dot fails. */
  lemma EmailWithoutDotRejected()
    ensures !ValidateEmail(Some("jane@examplecom"))
  {
    var u := "jane@examplecom";
    assert forall a :: 0 < a < |u| && u[a] == '@' ==> a == 4;
    assert u[5..] == "examplecom";
    assert forall i :: 0 <= i < |u[5..]| ==> u[5..][i] != '.';
  }

  // ---------------------------------------------------------------- normalisation

  /** normalize_vin: "" for None or "", otherwise whitespace removed and
      upper-cased. */
  function NormalizeVin(vin: Option<string>): (r: string)
    ensures !Truthy(vin) ==> r == ""
    ensures forall i :: 0 <= i < |r| ==> !IsSpace(r[i]) && !IsLowerLetter(r[i])
  {
    if !Truthy(vin) then "" else CleanVin(vin.value)
  }

  /** normalize_vin applied twice is applied once. */
  lemma NormalizeVinIdempotent(vin: Option<string>)
    ensures NormalizeVin(Some(NormalizeVin(vin))) == NormalizeVin(vin)
  {
    var r := NormalizeVin(vin);
    if r != "" {
      assert RemoveSpaces(r) == r;
      assert Upper(r) == r;
    }
  }

  /** For every value other than None, "" and the sentinel, validate_vin
      judges exactly the normalised form. */
  lemma ValidateVinIsShapeOfNormalized(s: string)
    requires s != "" && s != NoVinSentinel
    ensures ValidateVin(Some(s)) == VinShape(NormalizeVin(Some(s)))
  {
  }
}
