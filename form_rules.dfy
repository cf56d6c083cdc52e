/**
 * The field rules the React forms share: the email, phone and aadhar regexes, the
 * password-length rule, and the `handleChange` that every form uses to edit a field and
 * clear that field's error. Form state and error objects are string-keyed maps.
 */
module FormRules {
  import opened Wrappers
  import opened Text

  /** A form's state object (`formData`). */
  type Form = map<string, string>
  /** The `errors` object: field name to message. */
  type Errors = map<string, string>

  /** A character the email regex's class `[^\s@]` admits. */
  predicate EmailChar(c: char) {
    !IsSpace(c) && c != '@'
  }

  predicate EmailChars(s: string) {
    forall k :: 0 <= k < |s| ==> EmailChar(s[k])
  }

  /**
   * `/^[^\s@]+@[^\s@]+\.[^\s@]+$/.test(s)`, read off the regex: `s` splits as
   * `a + "@" + b + "." + c` with `a`, `b`, `c` non-empty and free of white space and '@'.
   */
  ghost predicate EmailShape(s: string) {
    exists i, j :: 0 < i && i + 1 < j && j + 1 < |s| && s[i] == '@' && s[j] == '.'
      && EmailChars(s[..i]) && EmailChars(s[i + 1..j]) && EmailChars(s[j + 1..])
  }

  /** Some '.' in `d` has a character on each side. */
  predicate HasInnerDot(d: string) {
    exists j :: 0 < j < |d| - 1 && d[j] == '.'
  }

  /**
   * The same test read as rules: no white space, exactly one '@' with something before it,
   * and after it a '.' with at least one character on each side.
   */
  predicate ValidEmail(s: string) {
    && (forall k :: 0 <= k < |s| ==> !IsSpace(s[k]))
    && '@' in s
    && var i := IndexOf(s, '@');
       i > 0 && '@' !in s[i + 1..] && HasInnerDot(s[i + 1..])
  }

  /** The first '@' of a string in which '@' occurs at `i` and not before is at `i`. */
  lemma FirstAt(s: string, i: nat)
    requires i < |s| && s[i] == '@' && '@' !in s[..i]
    ensures IndexOf(s, '@') == i
  {
  }

  /** Every string the regex accepts satisfies the rules. */
  lemma ShapeIsValid(s: string, i: nat, j: nat)
    requires 0 < i && i + 1 < j && j + 1 < |s| && s[i] == '@' && s[j] == '.'
    requires EmailChars(s[..i]) && EmailChars(s[i + 1..j]) && EmailChars(s[j + 1..])
    ensures ValidEmail(s)
  {
    assert s == s[..i] + [s[i]] + s[i + 1..j] + [s[j]] + s[j + 1..];
    assert '@' !in s[..i];
    FirstAt(s, i);
    var d := s[i + 1..];
    assert d == s[i + 1..j] + [s[j]] + s[j + 1..];
    assert d[j - i - 1] == '.';
  }

  /** A slice of a string free of white space, none of whose positions holds '@', is made of email characters. */
  lemma PieceChars(s: string, lo: nat, hi: nat)
    requires lo <= hi <= |s|
    requires forall k :: 0 <= k < |s| ==> !IsSpace(s[k])
    requires '@' !in s[lo..hi]
    ensures EmailChars(s[lo..hi])
  {
    var p := s[lo..hi];
    forall k | 0 <= k < |p|
      ensures EmailChar(p[k])
    {
      assert p[k] == s[lo + k];
    }
  }

  /** Every string satisfying the rules is accepted by the regex. */
  lemma ValidIsShape(s: string)
    requires ValidEmail(s)
    ensures EmailShape(s)
  {
    var i := IndexOf(s, '@');
    var d := s[i + 1..];
    var jd :| 0 < jd < |d| - 1 && d[jd] == '.';
    var j := i + 1 + jd;
    assert s[j] == '.';
    PieceChars(s, 0, i);
    assert s[i + 1..j] == d[..jd];
    assert '@' !in d[..jd];
    PieceChars(s, i + 1, j);
    assert s[j + 1..] == d[jd + 1..];
    assert '@' !in d[jd + 1..];
    PieceChars(s, j + 1, |s|);
    assert s[j + 1..|s|] == s[j + 1..];
  }

  /** The rule reading describes exactly the strings the regex accepts. */
  lemma ValidEmailIffShape(s: string)
    ensures ValidEmail(s) <==> EmailShape(s)
  {
    if EmailShape(s) {
      var i, j :| 0 < i && i + 1 < j && j + 1 < |s| && s[i] == '@' && s[j] == '.'
        && EmailChars(s[..i]) && EmailChars(s[i + 1..j]) && EmailChars(s[j + 1..]);
      ShapeIsValid(s, i, j);
    }
    if ValidEmail(s) {
      ValidIsShape(s);
    }
  }

  /** `/^[0-9]{10}$/`. */
  predicate ValidPhone(s: string) {
    DigitsOfLength(s, 10)
  }

  /** `/^[0-9]{12}$/`. */
  predicate ValidAadhar(s: string) {
    DigitsOfLength(s, 12)
  }

  /** The password rule: a `length` of at least six UTF-16 code units. */
  predicate LongEnoughPassword(s: string) {
    JsLength(s) >= 6
  }

  /** The description rule of both FIR forms: `!description || description.length < 20` is the error. */
  predicate DetailedDescription(s: string) {
    JsLength(s) >= 20
  }

  /** `if (!value.trim()) newErrors.k = message`: a message exactly when the field is blank. */
  function RequireText(value: string, message: string): (e: Option<string>)
    ensures e.Some? <==> IsBlank(value)
    ensures e.Some? ==> e.value == message
  {
    if Trim(value) == "" then Some(message) else None
  }

  /** `if (!value) newErrors.k = message`: a message exactly when the field is empty. */
  function RequireValue(value: string, message: string): (e: Option<string>)
    ensures e.Some? <==> value == ""
    ensures e.Some? ==> e.value == message
  {
    if value == "" then Some(message) else None
  }

  /** `if (!description || description.length < 20) newErrors.description = message`. */
  function RequireDetail(description: string, message: string): (e: Option<string>)
    ensures e.Some? <==> !DetailedDescription(description)
    ensures e.Some? ==> e.value == message
  {
    if description == "" || JsLength(description) < 20 then Some(message) else None
  }

  /** `newErrors[key] = message` when there is a message; nothing otherwise. */
  function Put(errors: Errors, key: string, message: Option<string>): Errors {
    if message.Some? then errors[key := message.value] else errors
  }

  /**
   * `handleChange`: the form takes the new value for `name`; if that field had a truthy
   * error message it becomes '', and no other error changes.
   */
  function HandleChange(form: Form, errors: Errors, name: string, value: string): (r: (Form, Errors))
    ensures r.0 == form[name := value]
    ensures r.1.Keys == errors.Keys
    ensures forall k :: k in errors && k != name ==> r.1[k] == errors[k]
    ensures name in errors ==> r.1[name] == ""
  {
    (form[name := value], if name in errors && errors[name] != "" then errors[name := ""] else errors)
  }

  /** `field || ''` on a JSON object with string fields: the value when present and non-empty, else ''. */
  function FieldOr(obj: Option<map<string, string>>, key: string): (r: string)
    ensures obj.Some? && key in obj.value ==> r == obj.value[key]
    ensures !(obj.Some? && key in obj.value) ==> r == ""
  {
    if obj.Some? && key in obj.value then obj.value[key] else ""
  }
}
