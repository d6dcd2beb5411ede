/** `CustomerFormHandler`: validates the whole check-in form, and on submit either
    reports the first failing field or appends one record to storage. */
module FormHandler {
  import opened Wrappers
  import opened Text
  import opened Records
  import opened Seqs
  import opened Validation
  import Storage

  /** A form control: its `name` (empty when it has none) and its current `value`. */
  datatype Element = Element(name: string, value: string)

  /** One key of the `errors` object with its message. */
  datatype ErrorEntry = ErrorEntry(field: string, message: string)

  /** What a submit leads to: the message shown for an invalid form, the record
      written, or the storage error. */
  datatype SubmitOutcome = Rejected(message: string) | Saved(record: Submission) | SaveFailed

  predicate Named(e: Element)
  {
    e.name != ""
  }

  /** `Array.from(this.form.elements).filter(el => el.name)`. */
  function NamedElements(form: seq<Element>): seq<Element>
  {
    Keep(form, Named)
  }

  predicate IsCheckinControl(e: Element)
  {
    e.name == "checkin"
  }

  /** What the check-out rule gets from `this.form.elements['checkin'].value`: the
      raw value of the form's one control named `checkin`, or `None` (no date) when
      there are several or none. Controls are found by name only; ids, input types
      and which radio button is checked are not part of the model. */
  function CheckinValue(form: seq<Element>): Option<string>
  {
    var controls := Keep(form, IsCheckinControl);
    if |controls| == 1 then Some(controls[0].value) else None
  }

  /** With exactly one control named `checkin`, the check-out rule reads its value. */
  lemma CheckinValueSingle(form: seq<Element>, i: nat)
    requires i < |form| && form[i].name == "checkin"
    requires forall j :: 0 <= j < |form| && j != i ==> form[j].name != "checkin"
    ensures CheckinValue(form) == Some(form[i].value)
  {
    var a, b := form[..i], form[i + 1..];
    assert form == a + [form[i]] + b;
    KeepAppend(a + [form[i]], b, IsCheckinControl);
    KeepAppend(a, [form[i]], IsCheckinControl);
    KeepNone(a, IsCheckinControl);
    KeepNone(b, IsCheckinControl);
    assert [form[i]][1..] == [];
  }

  /** With two controls named `checkin`, the check-out rule reads no date. */
  lemma CheckinValueShared(form: seq<Element>, i: nat, j: nat)
    requires i < j < |form| && form[i].name == "checkin" && form[j].name == "checkin"
    ensures CheckinValue(form) == None
  {
    var a, b := form[..j], form[j..];
    assert form == a + b;
    assert a[i] == form[i] && b[0] == form[j];
    KeepAppend(a, b, IsCheckinControl);
    KeepMembers(a, IsCheckinControl, form[i]);
    KeepMembers(b, IsCheckinControl, form[j]);
  }

  /** The rule of every field, for the check-in value and environment of one form:
      `(el) => this._validateField(el.name, el)`. */
  function FieldCheck(checkin: Option<string>, env: Env): Element -> Verdict
  {
    (e: Element) => ValidateField(e.name, e.value, checkin, env)
  }

  function Fields(errs: seq<ErrorEntry>): (r: seq<string>)
    ensures |r| == |errs|
    ensures forall i :: 0 <= i < |errs| ==> r[i] == errs[i].field
  {
    if errs == [] then [] else [errs[0].field] + Fields(errs[1..])
  }

  /** `errors[k] = m` on a JavaScript object: a key already present keeps its place
      and takes the new message; a new key goes last. */
  function Put(errs: seq<ErrorEntry>, k: string, m: string): seq<ErrorEntry>
  {
    if errs == [] then [ErrorEntry(k, m)]
    else if errs[0].field == k then [ErrorEntry(k, m)] + errs[1..]
    else [errs[0]] + Put(errs[1..], k, m)
  }

  /** The `errors` object the loop of `validateForm` builds over `elems`. */
  function ErrorsOf(elems: seq<Element>, check: Element -> Verdict): seq<ErrorEntry>
  {
    if elems == [] then []
    else
      var prev := ErrorsOf(elems[..|elems| - 1], check);
      var e := elems[|elems| - 1];
      if check(e).ok then prev else Put(prev, e.name, check(e).msg)
  }

  /** One more element of the loop in `validateForm`. */
  lemma ErrorsOfStep(elems: seq<Element>, i: nat, check: Element -> Verdict)
    requires i < |elems|
    ensures ErrorsOf(elems[..i + 1], check) ==
      if check(elems[i]).ok then ErrorsOf(elems[..i], check)
      else Put(ErrorsOf(elems[..i], check), elems[i].name, check(elems[i]).msg)
  {
    assert elems[..i + 1][..i] == elems[..i];
  }

  /** The errors of a whole form. */
  function FormErrors(form: seq<Element>, env: Env): seq<ErrorEntry>
  {
    ErrorsOf(NamedElements(form), FieldCheck(CheckinValue(form), env))
  }

  /** The names of the failing elements, in element order, repetitions included. */
  function FailingNames(elems: seq<Element>, check: Element -> Verdict): seq<string>
  {
    if elems == [] then []
    else
      var e := elems[|elems| - 1];
      FailingNames(elems[..|elems| - 1], check) + (if check(e).ok then [] else [e.name])
  }

  /** The distinct elements of `s`, each where it first occurs. */
  function Dedup(s: seq<string>): seq<string>
  {
    if s == [] then []
    else
      var d := Dedup(s[..|s| - 1]);
      if s[|s| - 1] in d then d else d + [s[|s| - 1]]
  }

  /** The object `getValues` builds from `FormData`: every named control's trimmed
      value under its name, a later control overwriting an earlier one. */
  function ValuesOf(form: seq<Element>): map<string, string>
  {
    if form == [] then map[]
    else
      var m := ValuesOf(form[..|form| - 1]);
      var e := form[|form| - 1];
      if e.name != "" then m[e.name := Trim(e.value)] else m
  }

  ghost predicate RuleMessages(errs: seq<ErrorEntry>)
  {
    forall i :: 0 <= i < |errs| ==> errs[i].message == RuleMessage(errs[i].field)
  }

  lemma {:induction false} PutFields(errs: seq<ErrorEntry>, k: string, m: string)
    ensures Fields(Put(errs, k, m)) == if k in Fields(errs) then Fields(errs) else Fields(errs) + [k]
  {
    if errs != [] {
      PutFields(errs[1..], k, m);
      assert Fields(errs) == [errs[0].field] + Fields(errs[1..]);
      if errs[0].field != k {
        assert Fields(Put(errs, k, m)) == [errs[0].field] + Fields(Put(errs[1..], k, m));
      } else {
        assert Fields(Put(errs, k, m)) == [k] + Fields(errs[1..]);
      }
    }
  }

  lemma {:induction false} PutMessages(errs: seq<ErrorEntry>, k: string)
    requires RuleMessages(errs)
    ensures RuleMessages(Put(errs, k, RuleMessage(k)))
  {
    if errs != [] && errs[0].field != k {
      PutMessages(errs[1..], k);
      var r := Put(errs, k, RuleMessage(k));
      forall i | 0 <= i < |r| ensures r[i].message == RuleMessage(r[i].field) {
        if i > 0 { assert r[i] == Put(errs[1..], k, RuleMessage(k))[i - 1]; }
      }
    }
  }

  lemma PutHead(errs: seq<ErrorEntry>, k: string, m: string)
    ensures Put(errs, k, m) != []
    ensures errs != [] ==> Put(errs, k, m)[0].field == errs[0].field
  {
  }

  /** A validation message depends only on the field name. */
  lemma {:induction false} ErrorMessagesAreRuleMessages(elems: seq<Element>, checkin: Option<string>, env: Env)
    ensures RuleMessages(ErrorsOf(elems, FieldCheck(checkin, env)))
  {
    if elems != [] {
      var check := FieldCheck(checkin, env);
      var e := elems[|elems| - 1];
      ErrorMessagesAreRuleMessages(elems[..|elems| - 1], checkin, env);
      assert check(e).msg == RuleMessage(e.name);
      PutMessages(ErrorsOf(elems[..|elems| - 1], check), e.name);
    }
  }

  lemma {:induction false} DedupMembers(s: seq<string>, x: string)
    ensures x in Dedup(s) <==> x in s
  {
    if s != [] {
      DedupMembers(s[..|s| - 1], x);
      assert s == s[..|s| - 1] + [s[|s| - 1]];
    }
  }

  lemma {:induction false} DedupDistinct(s: seq<string>)
    ensures forall i, j :: 0 <= i < j < |Dedup(s)| ==> Dedup(s)[i] != Dedup(s)[j]
  {
    if s != [] {
      DedupDistinct(s[..|s| - 1]);
      DedupMembers(s[..|s| - 1], s[|s| - 1]);
    }
  }

  lemma {:induction false} FailingNamesMembers(elems: seq<Element>, check: Element -> Verdict, k: string)
    ensures k in FailingNames(elems, check) <==> exists e :: e in elems && e.name == k && !check(e).ok
  {
    if elems != [] {
      var p := elems[..|elems| - 1];
      FailingNamesMembers(p, check, k);
      assert elems == p + [elems[|elems| - 1]];
    }
  }

  /** The keys of `errors` are the failing names, without repetition, in the order in
      which the first failing element of each name appears. */
  lemma {:induction false} ErrorsInElementOrder(elems: seq<Element>, check: Element -> Verdict)
    ensures Fields(ErrorsOf(elems, check)) == Dedup(FailingNames(elems, check))
  {
    if elems != [] {
      var p := elems[..|elems| - 1];
      var e := elems[|elems| - 1];
      ErrorsInElementOrder(p, check);
      var fp := FailingNames(p, check);
      if !check(e).ok {
        PutFields(ErrorsOf(p, check), e.name, check(e).msg);
        var f := fp + [e.name];
        assert f[..|f| - 1] == fp;
      } else {
        assert fp + [] == fp;
      }
    }
  }

  /** The error map holds exactly the failing names, each once, each with its rule's message. */
  lemma ErrorsExactlyFailing(elems: seq<Element>, checkin: Option<string>, env: Env)
    ensures var check := FieldCheck(checkin, env);
      forall k :: k in Fields(ErrorsOf(elems, check)) <==> exists e :: e in elems && e.name == k && !check(e).ok
    ensures var errs := ErrorsOf(elems, FieldCheck(checkin, env));
      forall i, j :: 0 <= i < j < |errs| ==> errs[i].field != errs[j].field
    ensures var errs := ErrorsOf(elems, FieldCheck(checkin, env));
      forall i :: 0 <= i < |errs| ==> errs[i].message == RuleMessage(errs[i].field)
  {
    var check := FieldCheck(checkin, env);
    var fnames := FailingNames(elems, check);
    ErrorsInElementOrder(elems, check);
    ErrorMessagesAreRuleMessages(elems, checkin, env);
    DedupDistinct(fnames);
    forall k ensures k in Fields(ErrorsOf(elems, check)) <==> exists e :: e in elems && e.name == k && !check(e).ok
    {
      DedupMembers(fnames, k);
      FailingNamesMembers(elems, check, k);
    }
    var errs := ErrorsOf(elems, check);
    forall i, j | 0 <= i < j < |errs| ensures errs[i].field != errs[j].field {
      assert Fields(errs)[i] == errs[i].field && Fields(errs)[j] == errs[j].field;
    }
  }

  /** The form is error-free exactly when every element passes its rule. */
  lemma {:induction false} NoErrorsIffAllPass(elems: seq<Element>, check: Element -> Verdict)
    ensures ErrorsOf(elems, check) == [] <==> forall e :: e in elems ==> check(e).ok
  {
    if elems != [] {
      var p := elems[..|elems| - 1];
      var e := elems[|elems| - 1];
      NoErrorsIffAllPass(p, check);
      PutHead(ErrorsOf(p, check), e.name, check(e).msg);
      assert elems == p + [e];
    }
  }

  /** The first key of `errors` is the name of the first failing element. */
  lemma {:induction false} FirstErrorIsFirstFailing(elems: seq<Element>, check: Element -> Verdict, i: nat)
    requires i < |elems| && !check(elems[i]).ok
    requires forall j :: 0 <= j < i ==> check(elems[j]).ok
    ensures ErrorsOf(elems, check) != []
    ensures ErrorsOf(elems, check)[0].field == elems[i].name
  {
    var n := |elems|;
    var p := elems[..n - 1];
    var e := elems[n - 1];
    if i == n - 1 {
      NoErrorsIffAllPass(p, check);
    } else {
      FirstErrorIsFirstFailing(p, check, i);
      PutHead(ErrorsOf(p, check), e.name, check(e).msg);
    }
  }

  /** A rejected submission reports the message of the first failing named control. */
  lemma FirstErrorMessage(form: seq<Element>, env: Env, i: nat)
    requires var elems := NamedElements(form);
      i < |elems| && Fails(elems[i], form, env) && forall j :: 0 <= j < i ==> !Fails(elems[j], form, env)
    ensures FormErrors(form, env) != []
    ensures FormErrors(form, env)[0] == ErrorEntry(NamedElements(form)[i].name, RuleMessage(NamedElements(form)[i].name))
  {
    var elems := NamedElements(form);
    var check := FieldCheck(CheckinValue(form), env);
    FirstErrorIsFirstFailing(elems, check, i);
    ErrorMessagesAreRuleMessages(elems, CheckinValue(form), env);
  }

  /** Every named control of `form` passes `check`. */
  ghost predicate AllNamedPass(form: seq<Element>, check: Element -> Verdict)
  {
    forall e :: e in form && Named(e) ==> check(e).ok
  }

  lemma NamedElementsPass(form: seq<Element>, check: Element -> Verdict)
    ensures AllNamedPass(form, check) <==> forall e :: e in NamedElements(form) ==> check(e).ok
  {
    forall e ensures e in NamedElements(form) <==> e in form && Named(e) {
      KeepMembers(form, Named, e);
    }
  }

  /** Element `e` of `form` fails its rule. */
  predicate Fails(e: Element, form: seq<Element>, env: Env)
  {
    !FieldCheck(CheckinValue(form), env)(e).ok
  }

  lemma {:induction false} ValuesKeys(form: seq<Element>, k: string)
    ensures k in ValuesOf(form) <==> k != "" && exists e :: e in form && e.name == k
  {
    if form != [] {
      var p := form[..|form| - 1];
      ValuesKeys(p, k);
      assert form == p + [form[|form| - 1]];
    }
  }

  lemma {:induction false} ValuesAtLast(form: seq<Element>, i: nat)
    requires i < |form| && form[i].name != ""
    requires forall j :: i < j < |form| ==> form[j].name != form[i].name
    ensures form[i].name in ValuesOf(form) && ValuesOf(form)[form[i].name] == Trim(form[i].value)
  {
    var n := |form|;
    if i < n - 1 {
      var p := form[..n - 1];
      assert p[i] == form[i];
      forall j | i < j < |p| ensures p[j].name != p[i].name { assert p[j] == form[j]; }
      ValuesAtLast(p, i);
    }
  }

  lemma {:induction false} ValuesHoldTrimmed(form: seq<Element>, k: string)
    requires k in ValuesOf(form)
    ensures Trim(ValuesOf(form)[k]) == ValuesOf(form)[k]
  {
    var p := form[..|form| - 1];
    var e := form[|form| - 1];
    if e.name == k && k != "" {
      assert ValuesOf(form)[k] == Trim(e.value);
      TrimIdempotent(e.value);
    } else {
      ValuesHoldTrimmed(p, k);
    }
  }

  /** Every named control ends up in the values under its name, holding the trimmed
      value of the last control of that name, and nothing else does; every value is
      already trimmed. */
  lemma ValuesAreTrimmed(form: seq<Element>)
    ensures forall k :: k in ValuesOf(form) <==> k != "" && exists e :: e in form && e.name == k
    ensures forall i ::
      (0 <= i < |form| && form[i].name != "" && forall j :: i < j < |form| ==> form[j].name != form[i].name)
      ==> form[i].name in ValuesOf(form) && ValuesOf(form)[form[i].name] == Trim(form[i].value)
    ensures forall k :: k in ValuesOf(form) ==> Trim(ValuesOf(form)[k]) == ValuesOf(form)[k]
  {
    forall k | k in ValuesOf(form) ensures Trim(ValuesOf(form)[k]) == ValuesOf(form)[k] {
      ValuesHoldTrimmed(form, k);
    }
    forall k ensures k in ValuesOf(form) <==> k != "" && exists e :: e in form && e.name == k {
      ValuesKeys(form, k);
    }
    forall i | 0 <= i < |form| && form[i].name != "" && (forall j :: i < j < |form| ==> form[j].name != form[i].name)
      ensures form[i].name in ValuesOf(form) && ValuesOf(form)[form[i].name] == Trim(form[i].value)
    {
      ValuesAtLast(form, i);
    }
  }

  class CustomerFormHandler {
    const store: Storage.Store
    const storageKey: string

    constructor (store: Storage.Store, storageKey: string)
      ensures this.store == store && this.storageKey == storageKey
    {
      this.store := store;
      this.storageKey := storageKey;
    }

    /** `getValues()`: the trimmed value of every named control. */
    method GetValues(form: seq<Element>) returns (obj: Submission)
      ensures obj == ValuesOf(form)
      ensures forall k :: k in obj <==> k != "" && exists e :: e in form && e.name == k
    {
      obj := map[];
      var i := 0;
      while i < |form|
        invariant 0 <= i <= |form|
        invariant obj == ValuesOf(form[..i])
      {
        assert form[..i + 1][..i] == form[..i];
        if form[i].name != "" {
          obj := obj[form[i].name := Trim(form[i].value)];
        }
        i := i + 1;
      }
      assert form[..|form|] == form;
      ValuesAreTrimmed(form);
    }

    /** `validateForm()`: runs every named control's rule, collecting the failures. */
    method ValidateForm(form: seq<Element>, env: Env) returns (valid: bool, errors: seq<ErrorEntry>)
      ensures errors == FormErrors(form, env)
      ensures valid <==> errors == []
      ensures valid <==> AllNamedPass(form, FieldCheck(CheckinValue(form), env))
    {
      var elements := NamedElements(form);
      var checkin := CheckinValue(form);
      var check := FieldCheck(checkin, env);
      valid := true;
      errors := [];
      var i := 0;
      while i < |elements|
        invariant 0 <= i <= |elements|
        invariant errors == ErrorsOf(elements[..i], check)
        invariant valid <==> errors == []
      {
        ErrorsOfStep(elements, i, check);
        var el := elements[i];
        var v := check(el);
        if !v.ok {
          valid := false;
          PutHead(errors, el.name, v.msg);
          errors := Put(errors, el.name, v.msg);
        }
        i := i + 1;
      }
      assert elements[..|elements|] == elements;
      NoErrorsIffAllPass(elements, check);
      NamedElementsPass(form, check);
    }

    /** `saveToLocalStorage(data)`: stamps the record with an id and appends it to
        the stored sequence; the record comes back when the write succeeds. */
    method SaveToLocalStorage(data: Submission, newId: Id) returns (saved: Option<Submission>)
      modifies store
      ensures saved.Some? ==>
        saved.value == data["id" := newId]
        && store.slots == old(store.slots)[storageKey := old(store.Get(storageKey)) + [saved.value]]
      ensures saved.None? ==> store.slots == old(store.slots)
    {
      var entries := store.Get(storageKey);
      var record := data["id" := newId];
      entries := entries + [record];
      var ok := store.SetItem(storageKey, entries);
      saved := if ok then Some(record) else None;
    }

    /** `onSubmit()`: an invalid form stores nothing and reports its first error; a
        valid one appends exactly one record, the trimmed values with the submission
        time and a fresh id. */
    method OnSubmit(form: seq<Element>, env: Env, now: string, newId: Id) returns (outcome: SubmitOutcome)
      modifies store
      ensures FormErrors(form, env) != [] ==>
        outcome == Rejected(FormErrors(form, env)[0].message) && store.slots == old(store.slots)
      ensures FormErrors(form, env) == [] ==>
        var record := ValuesOf(form)["submittedAt" := now]["id" := newId];
        (outcome == Saved(record)
          && store.slots == old(store.slots)[storageKey := old(store.Get(storageKey)) + [record]])
        || (outcome == SaveFailed && store.slots == old(store.slots))
    {
      var valid, errors := ValidateForm(form, env);
      if !valid {
        outcome := Rejected(errors[0].message);
        return;
      }
      var payload := GetValues(form);
      payload := payload["submittedAt" := now];
      var saved := SaveToLocalStorage(payload, newId);
      outcome := if saved.Some? then Saved(saved.value) else SaveFailed;
    }
  }
}
