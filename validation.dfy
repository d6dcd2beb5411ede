/** The per-field rule table of the check-in form (`CustomerFormHandler._validateField`):
    each rule looks only at the field's name and its trimmed value, except the
    check-out rule, which also reads the raw check-in value. */
module Validation {
  import opened Wrappers
  import opened Text

  /** What the date and number rules take from the browser: the start of today and
      JavaScript's `new Date(..)` and `Number(..)` coercions, `None` standing for an
      invalid date or `NaN`. Times are milliseconds since the epoch. */
  datatype Env = Env(today: int, parseDate: string -> Option<int>, toNumber: string -> Option<real>)

  /** The `{ ok, msg }` pair `_validateField` returns. */
  datatype Verdict = Verdict(ok: bool, msg: string)

  const NameMessage: string := "Name must be at least 3 characters."
  const PhoneMessage: string := "Phone must be exactly 10 digits."
  const EmailMessage: string := "Enter valid email."
  const AddressMessage: string := "Address is required."
  const AadharMessage: string := "Aadhar must be exactly 12 digits."
  const CheckinMessage: string := "Check-in must be today or a future date."
  const CheckoutMessage: string := "Check-out must be after check-in."
  const AdultsMessage: string := "Number of adults must be 1 or more."
  const PurposeMessage: string := "Purpose must be at least 10 characters."

  predicate IsKnownField(name: string)
  {
    name in {"name", "phone", "email", "address", "aadhar", "checkin", "checkout", "adults", "purpose"}
  }

  /** The message attached to a failing field; fields without a rule carry none. */
  function RuleMessage(name: string): string
  {
    match name
    case "name" => NameMessage
    case "phone" => PhoneMessage
    case "email" => EmailMessage
    case "address" => AddressMessage
    case "aadhar" => AadharMessage
    case "checkin" => CheckinMessage
    case "checkout" => CheckoutMessage
    case "adults" => AdultsMessage
    case "purpose" => PurposeMessage
    case _ => ""
  }

  /** `/^\d{n}$/.test(s)`: `n` digits are consumed one by one, then the input must end. */
  predicate MatchesDigits(s: string, n: nat)
  {
    if n == 0 then s == [] else s != [] && IsDigit(s[0]) && MatchesDigits(s[1..], n - 1)
  }

  /** `[^\s@]`. */
  predicate EmailChar(c: char)
  {
    !IsSpace(c) && c != '@'
  }

  /** `[^\s@]*`. */
  predicate EmailRun(s: string)
  {
    forall i :: 0 <= i < |s| ==> EmailChar(s[i])
  }

  /** The position of the first `c` in `s`, or `|s|` when there is none. */
  function IndexOf(s: string, c: char): (r: nat)
    ensures r <= |s|
    ensures r < |s| ==> s[r] == c
    ensures forall k :: 0 <= k < r ==> s[k] != c
  {
    if s == [] then 0 else if s[0] == c then 0 else 1 + IndexOf(s[1..], c)
  }

  /** `/^[^\s@]+@[^\s@]+\.[^\s@]+$/.test(s)`, as the matcher settles it: the local
      part runs up to the first `@` and must be non-empty and free of white space;
      the rest must be free of white space and `@` and hold a `.` that is neither its
      first nor its last character. */
  predicate MatchesEmail(s: string)
  {
    var at := IndexOf(s, '@');
    0 < at < |s| && EmailRun(s[..at]) &&
    var domain := s[at + 1..];
    EmailRun(domain) && |domain| >= 3 && '.' in domain[1..|domain| - 1]
  }

  /** The shape the email regular expression describes, read off its syntax: three
      non-empty runs of `[^\s@]`, joined by `@` and by `.`. */
  ghost predicate EmailPattern(s: string)
  {
    exists a, b, c :: EmailRun(a) && EmailRun(b) && EmailRun(c)
      && a != [] && b != [] && c != [] && s == a + "@" + b + "." + c
  }

  /** The rule of field `name` applied to its trimmed value `val`. */
  predicate Passes(name: string, val: string, checkin: Option<string>, env: Env)
  {
    match name
    case "name" => |val| >= 3
    case "phone" => MatchesDigits(val, 10)
    case "email" => MatchesEmail(val)
    case "address" => |val| > 0
    case "aadhar" => MatchesDigits(val, 12)
    case "checkin" =>
      val != "" && (match env.parseDate(val)
                    case Some(d) => d >= env.today
                    case None => false)
    case "checkout" =>
      val != "" && checkin.Some? &&
      (match (env.parseDate(val), env.parseDate(checkin.value))
       case (Some(co), Some(ci)) => co > ci
       case _ => false)
    case "adults" =>
      val != "" && (match env.toNumber(val)
                    case Some(n) => n >= 1.0
                    case None => false)
    case "purpose" => |val| >= 10
    case _ => true
  }

  /** `_validateField(name, el)` without its effect on the element's CSS classes:
      the value is trimmed, then the field's rule decides. The check-out rule also
      reads `form.elements['checkin'].value`, untrimmed: `checkin` is `Some` of that
      value, and `None` when the form gives no check-in value to compare with. */
  function ValidateField(name: string, raw: string, checkin: Option<string>, env: Env): Verdict
  {
    Verdict(Passes(name, Trim(raw), checkin, env), RuleMessage(name))
  }

  lemma {:induction false} DigitsExactly(s: string, n: nat)
    ensures MatchesDigits(s, n) <==> |s| == n && forall i :: 0 <= i < |s| ==> IsDigit(s[i])
  {
    if n > 0 && s != [] {
      DigitsExactly(s[1..], n - 1);
      if |s| == n && forall i :: 0 <= i < |s| ==> IsDigit(s[i]) {
        assert forall i :: 0 <= i < |s[1..]| ==> IsDigit(s[1..][i]) by {
          forall i | 0 <= i < |s[1..]| ensures IsDigit(s[1..][i]) { assert s[1..][i] == s[i + 1]; }
        }
      }
      if MatchesDigits(s, n) {
        forall i | 0 <= i < |s| ensures IsDigit(s[i]) {
          if i > 0 { assert s[i] == s[1..][i - 1]; }
        }
      }
    }
  }

  lemma EmailRunAppend(a: string, b: string)
    ensures EmailRun(a + b) <==> EmailRun(a) && EmailRun(b)
  {
    if EmailRun(a) && EmailRun(b) {
      forall i | 0 <= i < |a + b| ensures EmailChar((a + b)[i]) {
        if i >= |a| { assert (a + b)[i] == b[i - |a|]; }
      }
    }
    if EmailRun(a + b) {
      forall i | 0 <= i < |b| ensures EmailChar(b[i]) { assert b[i] == (a + b)[|a| + i]; }
      forall i | 0 <= i < |a| ensures EmailChar(a[i]) { assert a[i] == (a + b)[i]; }
    }
  }

  lemma MatcherGivesPattern(s: string)
    requires MatchesEmail(s)
    ensures EmailPattern(s)
  {
    var at := IndexOf(s, '@');
    var domain := s[at + 1..];
    var j :| 0 <= j < |domain[1..|domain| - 1]| && domain[1..|domain| - 1][j] == '.';
    var k := j + 1;
    assert domain[k] == '.';
    var a, b, c := s[..at], domain[..k], domain[k + 1..];
    assert domain == b + "." + c;
    assert s == a + "@" + b + "." + c by {
      assert s == s[..at] + [s[at]] + s[at + 1..];
    }
    EmailRunAppend(b, "." + c);
    EmailRunAppend(".", c);
  }

  lemma PatternGivesMatcher(a: string, b: string, c: string)
    requires EmailRun(a) && EmailRun(b) && EmailRun(c) && a != [] && b != [] && c != []
    ensures MatchesEmail(a + "@" + b + "." + c)
  {
    var s := a + "@" + b + "." + c;
    assert s[|a|] == '@';
    forall k | 0 <= k < |a| ensures s[k] != '@' { assert s[k] == a[k]; }
    var at := IndexOf(s, '@');
    assert at == |a|;
    assert s[..at] == a;
    var domain := s[at + 1..];
    assert domain == b + "." + c;
    assert EmailChar('.');
    EmailRunAppend(b, "." + c);
    EmailRunAppend(".", c);
    assert domain[1..|domain| - 1][|b| - 1] == '.';
  }

  /** The matcher accepts exactly the strings of the regular expression's shape. */
  lemma EmailMatcherIsPattern(s: string)
    ensures MatchesEmail(s) <==> EmailPattern(s)
  {
    if MatchesEmail(s) {
      MatcherGivesPattern(s);
    }
    if EmailPattern(s) {
      var a, b, c :| EmailRun(a) && EmailRun(b) && EmailRun(c)
        && a != [] && b != [] && c != [] && s == a + "@" + b + "." + c;
      PatternGivesMatcher(a, b, c);
    }
  }

  /** Name, address and purpose are length rules on the trimmed value. */
  lemma LengthRules(raw: string, checkin: Option<string>, env: Env)
    ensures ValidateField("name", raw, checkin, env) == Verdict(|Trim(raw)| >= 3, NameMessage)
    ensures ValidateField("address", raw, checkin, env) == Verdict(|Trim(raw)| > 0, AddressMessage)
    ensures ValidateField("purpose", raw, checkin, env) == Verdict(|Trim(raw)| >= 10, PurposeMessage)
  {
  }

  /** Phone and aadhar hold exactly 10 and 12 ASCII digits once trimmed. */
  lemma DigitRules(raw: string, checkin: Option<string>, env: Env)
    ensures var v := Trim(raw);
      ValidateField("phone", raw, checkin, env).ok <==> |v| == 10 && forall i :: 0 <= i < |v| ==> IsDigit(v[i])
    ensures var v := Trim(raw);
      ValidateField("aadhar", raw, checkin, env).ok <==> |v| == 12 && forall i :: 0 <= i < |v| ==> IsDigit(v[i])
    ensures ValidateField("phone", raw, checkin, env).msg == PhoneMessage
    ensures ValidateField("aadhar", raw, checkin, env).msg == AadharMessage
  {
    DigitsExactly(Trim(raw), 10);
    DigitsExactly(Trim(raw), 12);
  }

  /** The email rule accepts exactly the trimmed values of the form `a@b.c` with
      non-empty parts free of white space and `@`. */
  lemma EmailRule(raw: string, checkin: Option<string>, env: Env)
    ensures ValidateField("email", raw, checkin, env).ok <==> EmailPattern(Trim(raw))
    ensures ValidateField("email", raw, checkin, env).msg == EmailMessage
  {
    EmailMatcherIsPattern(Trim(raw));
  }

  /** The date and head-count rules. */
  lemma DateAndCountRules(raw: string, checkin: Option<string>, env: Env)
    ensures var v := Trim(raw);
      ValidateField("checkin", raw, checkin, env).ok <==>
        v != "" && env.parseDate(v).Some? && env.parseDate(v).value >= env.today
    ensures var v := Trim(raw);
      ValidateField("checkout", raw, checkin, env).ok <==>
        v != "" && checkin.Some? && env.parseDate(v).Some? && env.parseDate(checkin.value).Some?
        && env.parseDate(v).value > env.parseDate(checkin.value).value
    ensures var v := Trim(raw);
      ValidateField("adults", raw, checkin, env).ok <==>
        v != "" && env.toNumber(v).Some? && env.toNumber(v).value >= 1.0
  {
  }

  /** A field without a rule always passes and carries no message. */
  lemma UnknownFieldPasses(name: string, raw: string, checkin: Option<string>, env: Env)
    requires !IsKnownField(name)
    ensures ValidateField(name, raw, checkin, env) == Verdict(true, "")
  {
  }

  /** A failing field always carries a message, the one of its own rule. */
  lemma FailureHasMessage(name: string, raw: string, checkin: Option<string>, env: Env)
    requires !ValidateField(name, raw, checkin, env).ok
    ensures IsKnownField(name)
    ensures ValidateField(name, raw, checkin, env).msg != ""
  {
  }

  /** Because the value is trimmed first, white space typed around a field's value
      never changes that field's own verdict. (The check-out rule reads the check-in
      control untrimmed, so padding that control can change the check-out verdict.) */
  lemma PaddingIsIgnored(name: string, pre: string, raw: string, post: string, checkin: Option<string>, env: Env)
    requires AllSpace(pre) && AllSpace(post)
    ensures ValidateField(name, pre + raw + post, checkin, env) == ValidateField(name, raw, checkin, env)
  {
    TrimIgnoresPadding(pre, raw, post);
  }

  /** A five-digit phone number is refused. */
  lemma ShortPhoneRefused(checkin: Option<string>, env: Env)
    ensures !ValidateField("phone", "12345", checkin, env).ok
  {
    assert Trim("12345") == "12345" by { TrimStartFixed("12345"); TrimEndFixed("12345"); }
    DigitsExactly("12345", 10);
  }

  /** A ten-digit phone number is accepted. */
  lemma TenDigitPhoneAccepted(checkin: Option<string>, env: Env)
    ensures ValidateField("phone", "1234567890", checkin, env).ok
  {
    var v := "1234567890";
    assert forall i :: 0 <= i < |v| ==> IsDigit(v[i]);
    assert Trim(v) == v by { TrimStartFixed(v); TrimEndFixed(v); }
    DigitRules(v, checkin, env);
  }
}
