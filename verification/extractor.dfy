/** The filter-and-project pipeline of `scripts/extract_affiliation_fields_sg.py`:
    the `is_nonnull` test, the per-entry `try` block and the `extract` loop, and
    the normalisation of the loaded JSON document into a list of entries. */
module Extractor {
  import opened Wrappers
  import opened JsonValues
  import PyStr

  /** `is_nonnull`: false for JSON null and for a string that strips and
      lower-cases to "" or "null"; true for every other value. */
  predicate IsNonNull(v: Json)
  {
    v != Null && !(v.Str? && PyStr.Lower(PyStr.Strip(v.s)) in ["", "null"])
  }

  /** The keys of an emitted record. */
  const OutputKeys: set<string> := {"base_mpd", "merchantName", "merchant_slug", "trackingLink"}

  /** The inclusion condition, stated over the raw entry: it is an object whose
      `country_filter` is present and is the string "SG", and whose `base_mpd`
      is present and non-null. */
  predicate Qualifies(v: Json)
  {
    && v.Object?
    && "country_filter" in v.fields && v.fields["country_filter"] == Str("SG")
    && "base_mpd" in v.fields && IsNonNull(v.fields["base_mpd"])
  }

  /** `rec` is the record emitted for `src`: an object with exactly the output
      keys, each holding the source's value verbatim, or null where the source
      lacks that key. */
  predicate IsProjectionOf(rec: Json, src: Json)
  {
    && src.Object? && rec.Object?
    && rec.fields.Keys == OutputKeys
    && CopiedOrNull(rec.fields, src.fields, "base_mpd")
    && CopiedOrNull(rec.fields, src.fields, "merchantName")
    && CopiedOrNull(rec.fields, src.fields, "merchant_slug")
    && CopiedOrNull(rec.fields, src.fields, "trackingLink")
  }

  /** `rec` holds under `key` the value `src` holds there, or null if `src` has none. */
  predicate CopiedOrNull(rec: map<string, Json>, src: map<string, Json>, key: string)
  {
    key in rec && rec[key] == (if key in src then src[key] else Null)
  }

  /** The four-key dictionary literal built for a kept entry. */
  function Project(fields: map<string, Json>): map<string, Json>
  {
    map[
      "base_mpd" := Get(fields, "base_mpd"),
      "merchantName" := Get(fields, "merchantName"),
      "merchant_slug" := Get(fields, "merchant_slug"),
      "trackingLink" := Get(fields, "trackingLink")
    ]
  }

  /** The dictionary literal built for a kept entry is the entry's four-key projection. */
  lemma ProjectIsProjection(v: Json)
    requires v.Object?
    ensures IsProjectionOf(Object(Project(v.fields)), v)
  {
  }

  /** What the `try` block raises: only a non-dict entry fails, because it has no `.get`. */
  datatype EntryError = NotAMapping

  /** The body of the `try` block for one entry: a failure for a non-object,
      `None` when the entry is passed over (`continue`), the new record otherwise. */
  function ProcessEntry(obj: Json): (r: Result<Option<Json>, EntryError>)
    ensures r.Failure? <==> !obj.Object?
    ensures r.Success? && r.value.Some? <==> Qualifies(obj)
    ensures r.Success? && r.value.Some? ==> IsProjectionOf(r.value.value, obj)
  {
    match obj
    case Object(fields) =>
      if Get(fields, "country_filter") != Str("SG") then Success(None)
      else if !IsNonNull(Get(fields, "base_mpd")) then Success(None)
      else Success(Some(Object(Project(fields))))
    case _ => Failure(NotAMapping)
  }

  /** The records `ProcessEntry` contributes for one entry: none when it fails
      (the `except` branch) or passes the entry over. */
  function Emitted(obj: Json): (recs: seq<Json>)
    ensures recs == if Qualifies(obj) then [Object(Project(obj.fields))] else []
  {
    var r := ProcessEntry(obj);
    if r.Success? && r.value.Some? then [r.value.value] else []
  }

  /** An emitted record: an object holding exactly the four output keys. */
  predicate IsOutputRecord(v: Json)
  {
    v.Object? && v.fields.Keys == OutputKeys
  }

  /** `extract`: the records of the entries that qualify, in input order. */
  function Extract(items: seq<Json>): (out: seq<Json>)
    ensures |out| <= |items|
    ensures forall k :: 0 <= k < |out| ==> IsOutputRecord(out[k])

  {
    if items == [] then []
    else Emitted(items[0]) + Extract(items[1..])
  }

  /** `extract` as the source writes it: one pass over the entries, appending
      to `out`, with a failing entry skipped and the pass carried on. */
  method ExtractLoop(items: seq<Json>) returns (out: seq<Json>)
    ensures out == Extract(items)
  {
    out := [];
    var i := 0;
    while i < |items|
      invariant 0 <= i <= |items|
      invariant out == Extract(items[..i])
    {
      var r := ProcessEntry(items[i]);
      ghost var added := if r.Success? && r.value.Some? then [r.value.value] else [];
      assert added == Emitted(items[i]);
      if r.Success? && r.value.Some? {
        out := out + [r.value.value];
      }
      assert out == Extract(items[..i]) + added;
      ExtractPrefixStep(items, i);
      i := i + 1;
    }
    assert items[..|items|] == items;
  }

  /** `extract` distributes over concatenation: each entry is handled on its own. */
  lemma {:induction false} ExtractAppend(a: seq<Json>, b: seq<Json>)
    ensures Extract(a + b) == Extract(a) + Extract(b)
  {
    if a == [] {
      assert a + b == b;
    } else {
      assert (a + b)[1..] == a[1..] + b;
      ExtractAppend(a[1..], b);
    }
  }

  /** Appending one entry appends what that entry emits. */
  lemma ExtractSnoc(items: seq<Json>, v: Json)
    ensures Extract(items + [v]) == Extract(items) + Emitted(v)
  {
    ExtractAppend(items, [v]);
    assert [v][1..] == [];
  }

  /** Extending the prefix handled so far by one entry appends what that entry emits. */
  lemma ExtractPrefixStep(items: seq<Json>, i: int)
    requires 0 <= i < |items|
    ensures Extract(items[..i + 1]) == Extract(items[..i]) + Emitted(items[i])
  {
    TakeSnoc(items, i);
    ExtractSnoc(items[..i], items[i]);
  }

  /** A prefix one longer is the shorter prefix and the next element. */
  lemma TakeSnoc<T>(s: seq<T>, i: int)
    requires 0 <= i < |s|
    ensures s[..i + 1] == s[..i] + [s[i]]
  {
  }

  /** The keys `main` looks under, in priority order, for a wrapped list. */
  const ContainerKeys: seq<string> := ["data", "items", "merchants", "results"]

  /** `key` is present in `fields` and holds an array. */
  predicate HoldsList(fields: map<string, Json>, key: string)
  {
    key in fields && fields[key].Array?
  }

  /** The position of the first of `keys` that holds a list, or `|keys|` when
      none does (the `for ... else` search of `main`). */
  function FirstListKey(fields: map<string, Json>, keys: seq<string>): (i: nat)
    ensures i <= |keys|
    ensures forall j :: 0 <= j < i ==> !HoldsList(fields, keys[j])
    ensures i < |keys| ==> HoldsList(fields, keys[i])
  {
    if keys == [] || HoldsList(fields, keys[0]) then 0
    else 1 + FirstListKey(fields, keys[1..])
  }

  /** Raised by `main` for a top-level value that is neither an object nor an array. */
  datatype NormalizeError = UnsupportedStructure

  /** The normalisation block of `main`: the list of entries to extract from. */
  function Normalize(data: Json): (r: Result<seq<Json>, NormalizeError>)
    ensures data.Array? ==> r == Success(data.elems)
    ensures !data.Array? && !data.Object? ==> r == Failure(UnsupportedStructure)
    ensures data.Object? ==> r.Success?
    ensures (data.Object? && forall j :: 0 <= j < |ContainerKeys| ==> !HoldsList(data.fields, ContainerKeys[j]))
            ==> r == Success([data])
    ensures data.Object? ==>
              forall j :: 0 <= j < |ContainerKeys| && HoldsList(data.fields, ContainerKeys[j])
                && (forall l :: 0 <= l < j ==> !HoldsList(data.fields, ContainerKeys[l]))
                ==> r == Success(data.fields[ContainerKeys[j]].elems)
  {
    match data
    case Object(fields) =>
      var i := FirstListKey(fields, ContainerKeys);
      if i < |ContainerKeys| then Success(fields[ContainerKeys[i]].elems) else Success([data])
    case Array(elems) => Success(elems)
    case _ => Failure(UnsupportedStructure)
  }

  /** `main` from the loaded document to the records written out: normalise,
      then extract; the error stops the run before anything is extracted. */
  function Run(data: Json): (r: Result<seq<Json>, NormalizeError>)
    ensures r.Failure? <==> !data.Array? && !data.Object?
    ensures data.Array? ==> r == Success(Extract(data.elems))
  {
    match Normalize(data)
    case Success(entries) => Success(Extract(entries))
    case Failure(e) => Failure(e)
  }
}
