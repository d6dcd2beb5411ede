/** `SubmissionViewer`: lists, searches, deletes and imports the stored submissions,
    and escapes field values for HTML. */
module Viewer {
  import opened Wrappers
  import opened Text
  import opened Records
  import opened Seqs
  import Storage

  /** An element of an imported JSON array: an object with fields, or anything else
      (a number, a string, `true`, `null`). */
  datatype Item = Object(fields: Submission) | NonObject

  /** What `JSON.parse` makes of an imported file. */
  datatype Parsed = Unparseable | NotAnArray | Array(items: seq<Item>)

  /** Why an import fails: `JSON.parse` throws; the value is not an array
      ("Invalid format - expected an array"); or setting `item.id` on an element that
      is not an object throws a `TypeError`, class bodies being strict-mode code. */
  datatype ImportFailure = ParseError | InvalidFormat | ItemNotAnObject

  /** How `_importJSON` ends: no file was chosen, the import succeeded, or it failed. */
  datatype ImportOutcome = NoFile | Imported | ImportFailed(reason: ImportFailure)

  // ---------------------------------------------------------------- search

  /** `(searchInput.value || '').trim().toLowerCase()`. */
  function QueryOf(raw: string): string
  {
    Lower(Trim(raw))
  }

  /** The lower-cased name contains `q`, or the date part (first ten characters) of
      `submittedAt` does. */
  predicate Matches(x: Submission, q: string)
  {
    Contains(Lower(Field(x, "name")), q) || Contains(Prefix(Field(x, "submittedAt"), 10), q)
  }

  function Matcher(q: string): Submission -> bool
  {
    (x: Submission) => Matches(x, q)
  }

  /** `_filter()`: latest first, restricted to the matching items when the query is
      not blank. */
  function Search(data: seq<Submission>, rawQuery: string): seq<Submission>
  {
    var q := QueryOf(rawQuery);
    if q == "" then Reverse(data) else Reverse(Keep(data, Matcher(q)))
  }

  /** The query is normalised once and for all: normalising it again changes nothing. */
  lemma QueryIdempotent(rawQuery: string)
    ensures QueryOf(QueryOf(rawQuery)) == QueryOf(rawQuery)
  {
    TrimLowerTrim(rawQuery);
    LowerIdempotent(Trim(rawQuery));
  }

  /** A match is a hit in the lower-cased name or anywhere in `submittedAt`. */
  lemma MatchIsFieldHit(x: Submission, q: string)
    requires Matches(x, q)
    ensures Contains(Lower(Field(x, "name")), q) || Contains(Field(x, "submittedAt"), q)
  {
    if !Contains(Lower(Field(x, "name")), q) {
      PrefixContains(Field(x, "submittedAt"), 10, q);
    }
  }

  /** A blank query lists everything, latest first. */
  lemma SearchBlankReverses(data: seq<Submission>, rawQuery: string)
    requires QueryOf(rawQuery) == ""
    ensures |Search(data, rawQuery)| == |data|
    ensures forall i :: 0 <= i < |data| ==> Search(data, rawQuery)[i] == data[|data| - 1 - i]
  {
    ReverseLength(data);
    forall i | 0 <= i < |data| ensures Search(data, rawQuery)[i] == data[|data| - 1 - i] {
      ReverseAt(data, i);
    }
  }

  /** A non-blank query lists exactly the matching items, in reverse stored order. */
  lemma SearchKeepsMatches(data: seq<Submission>, rawQuery: string)
    requires QueryOf(rawQuery) != ""
    ensures forall x :: x in Search(data, rawQuery) <==> x in data && Matches(x, QueryOf(rawQuery))
    ensures Search(data, rawQuery) == Keep(Reverse(data), Matcher(QueryOf(rawQuery)))
    ensures IsSubsequence(Search(data, rawQuery), Reverse(data))
  {
    var p := Matcher(QueryOf(rawQuery));
    KeepReverse(data, p);
    KeepSubsequence(Reverse(data), p);
    forall x ensures x in Search(data, rawQuery) <==> x in data && Matches(x, QueryOf(rawQuery)) {
      KeepMembers(data, p, x);
      ReverseMembers(Keep(data, p), x);
    }
  }

  // ---------------------------------------------------------------- delete

  /** `item.id === id`. */
  predicate HasIdValue(x: Submission, id: string)
  {
    "id" in x && x["id"] == id
  }

  function Others(id: string): Submission -> bool
  {
    (x: Submission) => !HasIdValue(x, id)
  }

  /** `arr.filter(item => item.id !== id)`. */
  function DeleteById(data: seq<Submission>, id: string): seq<Submission>
  {
    Keep(data, Others(id))
  }

  /** Deleting removes every item with that id and no other: each other item keeps
      its number of occurrences, and the survivors keep their relative order. */
  lemma DeleteRemovesExactlyId(data: seq<Submission>, id: string)
    ensures forall x :: multiset(DeleteById(data, id))[x] == if HasIdValue(x, id) then 0 else multiset(data)[x]
    ensures forall x :: x in DeleteById(data, id) <==> x in data && !HasIdValue(x, id)
    ensures IsSubsequence(DeleteById(data, id), data)
  {
    forall x ensures multiset(DeleteById(data, id))[x] == if HasIdValue(x, id) then 0 else multiset(data)[x] {
      KeepMultiset(data, Others(id), x);
    }
    forall x ensures x in DeleteById(data, id) <==> x in data && !HasIdValue(x, id) {
      KeepMembers(data, Others(id), x);
    }
    KeepSubsequence(data, Others(id));
  }

  /** Deleting the same id twice stores the same sequence as deleting it once. */
  lemma DeleteIdempotent(data: seq<Submission>, id: string)
    ensures DeleteById(DeleteById(data, id), id) == DeleteById(data, id)
  {
    KeepIdempotent(data, Others(id));
  }

  /** Deleting an id no item carries changes nothing. */
  lemma DeleteAbsentId(data: seq<Submission>, id: string)
    requires forall i :: 0 <= i < |data| ==> !HasIdValue(data[i], id)
    ensures DeleteById(data, id) == data
  {
    KeepAll(data, Others(id));
  }

  // ---------------------------------------------------------------- import

  /** `if (!item.id) item.id = <fresh id>`. */
  function Stamp(x: Submission, id: Id): Submission
  {
    if HasId(x) then x else x["id" := id]
  }

  /** Giving an item an id changes no other field, so it is found by the same
      searches as before. */
  lemma StampKeepsFields(x: Submission, id: Id)
    ensures forall f :: f != "id" ==> Field(Stamp(x, id), f) == Field(x, f)
    ensures forall q :: Matches(Stamp(x, id), q) <==> Matches(x, q)
  {
  }

  /** The imported objects after the `forEach`, `freshId(i)` being the id the i-th
      item would be given. */
  function StampIds(xs: seq<Submission>, freshId: nat -> Id): seq<Submission>
  {
    seq(|xs|, i requires 0 <= i < |xs| => Stamp(xs[i], freshId(i)))
  }

  predicate AllObjects(items: seq<Item>)
  {
    forall i :: 0 <= i < |items| ==> items[i].Object?
  }

  function Objects(items: seq<Item>): seq<Submission>
    requires AllObjects(items)
  {
    seq(|items|, i requires 0 <= i < |items| => items[i].fields)
  }

  /** The merge step of `_importJSON`: the parsed value must be an array of objects;
      items lacking an id get one, and the result is appended to what is stored. */
  function MergeImport(existing: seq<Submission>, parsed: Parsed, freshId: nat -> Id): Result<seq<Submission>, ImportFailure>
  {
    match parsed
    case Unparseable => Failure(ParseError)
    case NotAnArray => Failure(InvalidFormat)
    case Array(items) =>
      if AllObjects(items) then Success(existing + StampIds(Objects(items), freshId))
      else Failure(ItemNotAnObject)
  }

  /** Anything but an array of objects is refused. */
  lemma ImportRejects(existing: seq<Submission>, parsed: Parsed, freshId: nat -> Id)
    ensures parsed.Unparseable? ==> MergeImport(existing, parsed, freshId) == Failure(ParseError)
    ensures parsed.NotAnArray? ==> MergeImport(existing, parsed, freshId) == Failure(InvalidFormat)
    ensures parsed.Array? && !AllObjects(parsed.items) ==> MergeImport(existing, parsed, freshId) == Failure(ItemNotAnObject)
  {
  }

  /** A successful import keeps the stored items as an unchanged prefix and appends
      one item per imported object: the object itself when it had an id, otherwise
      the object with a fresh non-empty id and nothing else changed. */
  lemma ImportAppends(existing: seq<Submission>, items: seq<Item>, freshId: nat -> Id)
    requires AllObjects(items)
    ensures MergeImport(existing, Array(items), freshId).Success?
    ensures var merged := MergeImport(existing, Array(items), freshId).value;
      |merged| == |existing| + |items| && merged[..|existing|] == existing
    ensures var merged := MergeImport(existing, Array(items), freshId).value;
      forall i :: 0 <= i < |items| ==>
        HasId(merged[|existing| + i])
        && (HasId(items[i].fields) ==> merged[|existing| + i] == items[i].fields)
        && (!HasId(items[i].fields) ==> merged[|existing| + i] == items[i].fields["id" := freshId(i)])
  {
    var merged := MergeImport(existing, Array(items), freshId).value;
    assert merged == existing + StampIds(Objects(items), freshId);
    forall i | 0 <= i < |items|
      ensures merged[|existing| + i] == Stamp(items[i].fields, freshId(i))
    {
      assert merged[|existing| + i] == StampIds(Objects(items), freshId)[i];
    }
  }

  /** The items of an exported collection, read back by `JSON.parse`. */
  function AsItems(data: seq<Submission>): (items: seq<Item>)
    ensures AllObjects(items) && Objects(items) == data
  {
    var items := seq(|data|, i requires 0 <= i < |data| => Object(data[i]));
    assert Objects(items) == data;
    items
  }

  /** Importing an export of the stored items, all of which carry ids as saved
      records do, appends them unchanged: the import is additive and does not
      deduplicate ids. */
  lemma ReimportDuplicates(data: seq<Submission>, freshId: nat -> Id)
    requires forall i :: 0 <= i < |data| ==> HasId(data[i])
    ensures MergeImport(data, Array(AsItems(data)), freshId) == Success(data + data)
  {
    var items := AsItems(data);
    forall i | 0 <= i < |data| ensures StampIds(Objects(items), freshId)[i] == data[i] {
      assert Objects(items)[i] == data[i];
      assert StampIds(Objects(items), freshId)[i] == Stamp(data[i], freshId(i));
      assert HasId(data[i]);
    }
    assert StampIds(Objects(items), freshId) == data;
  }

  // ---------------------------------------------------------------- HTML escaping

  /** `escapeHtml(s)`: five `replaceAll`s, `&` first. */
  function EscapeHtml(s: string): string
  {
    ReplaceAll(ReplaceAll(ReplaceAll(ReplaceAll(ReplaceAll(s,
      '&', "&amp;"), '<', "&lt;"), '>', "&gt;"), '"', "&quot;"), '\'', "&#39;")
  }

  /** The HTML character reference for one character, or the character itself. */
  function Entity(c: char): string
  {
    if c == '&' then "&amp;"
    else if c == '<' then "&lt;"
    else if c == '>' then "&gt;"
    else if c == '"' then "&quot;"
    else if c == '\'' then "&#39;"
    else [c]
  }

  /** Escaping character by character. */
  function EscapeEach(s: string): string
  {
    if s == [] then [] else Entity(s[0]) + EscapeEach(s[1..])
  }

  /** Decodes the five references `EscapeHtml` produces, as an HTML parser would. */
  function Unescape(s: string): string
    decreases |s|
  {
    if s == [] then []
    else if "&amp;" <= s then "&" + Unescape(s[5..])
    else if "&lt;" <= s then "<" + Unescape(s[4..])
    else if "&gt;" <= s then ">" + Unescape(s[4..])
    else if "&quot;" <= s then "\"" + Unescape(s[6..])
    else if "&#39;" <= s then "'" + Unescape(s[5..])
    else [s[0]] + Unescape(s[1..])
  }

  lemma EscapeAppend(a: string, b: string)
    ensures EscapeHtml(a + b) == EscapeHtml(a) + EscapeHtml(b)
  {
    var s1a, s1b := ReplaceAll(a, '&', "&amp;"), ReplaceAll(b, '&', "&amp;");
    ReplaceAllAppend(a, b, '&', "&amp;");
    var s2a, s2b := ReplaceAll(s1a, '<', "&lt;"), ReplaceAll(s1b, '<', "&lt;");
    ReplaceAllAppend(s1a, s1b, '<', "&lt;");
    var s3a, s3b := ReplaceAll(s2a, '>', "&gt;"), ReplaceAll(s2b, '>', "&gt;");
    ReplaceAllAppend(s2a, s2b, '>', "&gt;");
    var s4a, s4b := ReplaceAll(s3a, '"', "&quot;"), ReplaceAll(s3b, '"', "&quot;");
    ReplaceAllAppend(s3a, s3b, '"', "&quot;");
    ReplaceAllAppend(s4a, s4b, '\'', "&#39;");
  }

  lemma ReplaceSingle(c: char, d: char, rep: string)
    ensures ReplaceAll([c], d, rep) == if c == d then rep else [c]
  {
    assert [c][1..] == [];
  }

  /** The four replacements after the first leave `s` alone when it holds none of
      their characters. */
  lemma LaterLayersAbsent(s: string)
    requires '<' !in s && '>' !in s && '"' !in s && '\'' !in s
    ensures ReplaceAll(ReplaceAll(ReplaceAll(ReplaceAll(s, '<', "&lt;"), '>', "&gt;"), '"', "&quot;"), '\'', "&#39;") == s
  {
    ReplaceAllAbsent(s, '<', "&lt;");
    ReplaceAllAbsent(s, '>', "&gt;");
    ReplaceAllAbsent(s, '"', "&quot;");
    ReplaceAllAbsent(s, '\'', "&#39;");
  }

  lemma EscapeAmp(c: char)
    requires c == '&'
    ensures EscapeHtml([c]) == Entity(c)
  {
    ReplaceSingle(c, '&', "&amp;");
    LaterLayersAbsent("&amp;");
  }

  lemma EscapeLt(c: char)
    requires c == '<'
    ensures EscapeHtml([c]) == Entity(c)
  {
    var e := "&lt;";
    ReplaceSingle(c, '&', "&amp;");
    ReplaceSingle(c, '<', e);
    assert ReplaceAll(ReplaceAll([c], '&', "&amp;"), '<', e) == e;
    assert '>' !in e && '"' !in e && '\'' !in e;
    ReplaceAllAbsent(e, '>', "&gt;");
    ReplaceAllAbsent(e, '"', "&quot;");
    ReplaceAllAbsent(e, '\'', "&#39;");
  }

  lemma EscapeGt(c: char)
    requires c == '>'
    ensures EscapeHtml([c]) == Entity(c)
  {
    ReplaceSingle(c, '&', "&amp;");
    ReplaceSingle(c, '<', "&lt;");
    ReplaceSingle(c, '>', "&gt;");
    ReplaceAllAbsent("&gt;", '"', "&quot;");
    ReplaceAllAbsent("&gt;", '\'', "&#39;");
  }

  lemma EscapeQuot(c: char)
    requires c == '"'
    ensures EscapeHtml([c]) == Entity(c)
  {
    ReplaceSingle(c, '&', "&amp;");
    ReplaceSingle(c, '<', "&lt;");
    ReplaceSingle(c, '>', "&gt;");
    ReplaceSingle(c, '"', "&quot;");
    ReplaceAllAbsent("&quot;", '\'', "&#39;");
  }

  lemma EscapeApos(c: char)
    requires c == '\''
    ensures EscapeHtml([c]) == Entity(c)
  {
    ReplaceSingle(c, '&', "&amp;");
    ReplaceSingle(c, '<', "&lt;");
    ReplaceSingle(c, '>', "&gt;");
    ReplaceSingle(c, '"', "&quot;");
    ReplaceSingle(c, '\'', "&#39;");
  }

  lemma EscapeOneChar(c: char)
    ensures EscapeHtml([c]) == Entity(c)
  {
    if c == '&' { EscapeAmp(c); }
    else if c == '<' { EscapeLt(c); }
    else if c == '>' { EscapeGt(c); }
    else if c == '"' { EscapeQuot(c); }
    else if c == '\'' { EscapeApos(c); }
    else { EscapePlainUnchanged([c]); }
  }

  /** The chain of replacements is a per-character escape: no replacement touches
      the references introduced before it. */
  lemma {:induction false} EscapeIsPerCharacter(s: string)
    ensures EscapeHtml(s) == EscapeEach(s)
  {
    if s != [] {
      EscapeIsPerCharacter(s[1..]);
      assert s == [s[0]] + s[1..];
      EscapeAppend([s[0]], s[1..]);
      EscapeOneChar(s[0]);
    }
  }

  /** Decoding reads back the reference of one character at the front. */
  lemma UnescapeEntity(c: char, rest: string)
    ensures Unescape(Entity(c) + rest) == [c] + Unescape(rest)
  {
    var t := Entity(c) + rest;
    if c == '&' {
      assert "&amp;" <= t && t[5..] == rest;
    } else if c == '<' {
      assert t[1] == 'l';
      assert !("&amp;" <= t) && "&lt;" <= t && t[4..] == rest;
    } else if c == '>' {
      assert t[1] == 'g';
      assert !("&amp;" <= t) && !("&lt;" <= t) && "&gt;" <= t && t[4..] == rest;
    } else if c == '"' {
      assert t[1] == 'q';
      assert !("&amp;" <= t) && !("&lt;" <= t) && !("&gt;" <= t) && "&quot;" <= t && t[6..] == rest;
    } else if c == '\'' {
      assert t[1] == '#';
      assert !("&amp;" <= t) && !("&lt;" <= t) && !("&gt;" <= t) && !("&quot;" <= t);
      assert "&#39;" <= t && t[5..] == rest;
    } else {
      assert t[0] == c && t[1..] == rest;
    }
  }

  lemma {:induction false} UnescapeEach(s: string)
    ensures Unescape(EscapeEach(s)) == s
  {
    if s != [] {
      UnescapeEach(s[1..]);
      UnescapeEntity(s[0], EscapeEach(s[1..]));
      assert s == [s[0]] + s[1..];
    }
  }

  /** Escaping loses nothing: decoding the references gives the original text back. */
  lemma UnescapeInvertsEscape(s: string)
    ensures Unescape(EscapeHtml(s)) == s
  {
    EscapeIsPerCharacter(s);
    UnescapeEach(s);
  }

  /** Markup characters mark text that needs no escape. */
  predicate IsMarkup(d: char)
  {
    d == '<' || d == '>' || d == '"' || d == '\''
  }

  lemma EntityHasNoMarkup(c: char, d: char)
    requires IsMarkup(d)
    ensures d !in Entity(c)
  {
  }

  lemma {:induction false} EscapeEachHasNoMarkup(s: string, d: char)
    requires IsMarkup(d)
    ensures d !in EscapeEach(s)
  {
    if s != [] {
      EscapeEachHasNoMarkup(s[1..], d);
      EntityHasNoMarkup(s[0], d);
      assert EscapeEach(s) == Entity(s[0]) + EscapeEach(s[1..]);
    }
  }

  /** Escaped text holds no `<`, `>`, `"` or `'`. */
  lemma EscapeRemovesMarkup(s: string)
    ensures '<' !in EscapeHtml(s) && '>' !in EscapeHtml(s) && '"' !in EscapeHtml(s) && '\'' !in EscapeHtml(s)
  {
    EscapeIsPerCharacter(s);
    EscapeEachHasNoMarkup(s, '<');
    EscapeEachHasNoMarkup(s, '>');
    EscapeEachHasNoMarkup(s, '"');
    EscapeEachHasNoMarkup(s, '\'');
  }

  /** Text without any of the five special characters is left as it is. */
  lemma EscapePlainUnchanged(s: string)
    requires '&' !in s && '<' !in s && '>' !in s && '"' !in s && '\'' !in s
    ensures EscapeHtml(s) == s
  {
    ReplaceAllAbsent(s, '&', "&amp;");
    ReplaceAllAbsent(s, '<', "&lt;");
    ReplaceAllAbsent(s, '>', "&gt;");
    ReplaceAllAbsent(s, '"', "&quot;");
    ReplaceAllAbsent(s, '\'', "&#39;");
  }

  // ---------------------------------------------------------------- the viewer

  class SubmissionViewer {
    const store: Storage.Store
    const storageKey: string
    var data: seq<Submission>

    constructor (store: Storage.Store, storageKey: string)
      ensures this.store == store && this.storageKey == storageKey && data == []
    {
      this.store := store;
      this.storageKey := storageKey;
      data := [];
    }

    /** `_load()`. */
    method Load()
      modifies this`data
      ensures data == store.Get(storageKey)
    {
      data := store.Get(storageKey);
    }

    /** `_filter()` over the loaded items: for a blank query all of them, latest
        first; otherwise exactly the matching ones, latest first. */
    function Filter(rawQuery: string): (r: seq<Submission>)
      reads this
      ensures QueryOf(rawQuery) == "" ==>
        |r| == |data| && forall i :: 0 <= i < |r| ==> r[i] == data[|data| - 1 - i]
      ensures QueryOf(rawQuery) != "" ==> r == Keep(Reverse(data), Matcher(QueryOf(rawQuery)))
      ensures forall x :: x in r <==> x in data && (QueryOf(rawQuery) == "" || Matches(x, QueryOf(rawQuery)))
      ensures IsSubsequence(r, Reverse(data))
    {
      if QueryOf(rawQuery) == "" then
        SearchBlankReverses(data, rawQuery);
        ReverseMembersAll(data);
        IsSubsequenceRefl(Reverse(data));
        Search(data, rawQuery)
      else
        SearchKeepsMatches(data, rawQuery);
        Search(data, rawQuery)
    }

    /** `_delete(id)`: writes back the stored items without those carrying `id`, then
        reloads. The write's success is not checked by the source; `written` says
        whether it happened. */
    method Delete(id: string) returns (ghost written: bool)
      modifies this`data, store
      ensures written ==> store.slots == old(store.slots)[storageKey := DeleteById(old(store.Get(storageKey)), id)]
      ensures !written ==> store.slots == old(store.slots)
      ensures data == store.Get(storageKey)
    {
      var arr := store.Get(storageKey);
      var newArr := DeleteById(arr, id);
      var ok := store.SetItem(storageKey, newArr);
      written := ok;
      Load();
    }

    /** The `onload` handler of `_importJSON` on the chosen file's parsed content.
        The items are given ids in place, then appended to the stored ones; as in the
        source, success is reported whether or not the write went through. */
    method ImportJSON(file: Option<Parsed>, freshId: nat -> Id) returns (outcome: ImportOutcome, ghost written: bool)
      modifies this`data, store
      ensures file.None? ==> outcome == NoFile && store.slots == old(store.slots) && data == old(data)
      ensures file.Some? && MergeImport(old(store.Get(storageKey)), file.value, freshId).Failure? ==>
        outcome == ImportFailed(MergeImport(old(store.Get(storageKey)), file.value, freshId).error)
        && store.slots == old(store.slots) && data == old(data)
      ensures file.Some? && MergeImport(old(store.Get(storageKey)), file.value, freshId).Success? ==>
        outcome == Imported
        && (written ==> store.slots == old(store.slots)[storageKey :=
                          MergeImport(old(store.Get(storageKey)), file.value, freshId).value])
        && (!written ==> store.slots == old(store.slots))
        && data == store.Get(storageKey)
    {
      written := false;
      if file.None? {
        return NoFile, false;
      }
      match file.value
      case Unparseable =>
        outcome := ImportFailed(ParseError);
      case NotAnArray =>
        outcome := ImportFailed(InvalidFormat);
      case Array(items) =>
        var existing := store.Get(storageKey);
        var imported := items;
        var i := 0;
        while i < |imported|
          invariant 0 <= i <= |imported| == |items|
          invariant forall k :: 0 <= k < i ==> items[k].Object? && imported[k] == Object(Stamp(items[k].fields, freshId(k)))
          invariant forall k :: i <= k < |items| ==> imported[k] == items[k]
        {
          if imported[i].NonObject? {
            assert !AllObjects(items);
            return ImportFailed(ItemNotAnObject), false;
          }
          imported := imported[i := Object(Stamp(imported[i].fields, freshId(i)))];
          i := i + 1;
        }
        assert AllObjects(imported) && AllObjects(items);
        var merged := existing + Objects(imported);
        assert Objects(imported) == StampIds(Objects(items), freshId);
        var ok := store.SetItem(storageKey, merged);
        written := ok;
        Load();
        outcome := Imported;
    }

    /** The clear-all handler: removes the key and reloads, leaving nothing listed. */
    method ClearAll()
      modifies this`data, store
      ensures store.slots == old(store.slots) - {storageKey}
      ensures data == []
    {
      store.Clear(storageKey);
      Load();
    }
  }
}
