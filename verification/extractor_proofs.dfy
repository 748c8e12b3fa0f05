/** Properties of the extractor model: what `is_nonnull` rejects, that
    `extract` is the projection of exactly the qualifying subsequence of its
    input, and how `main` normalises the loaded document. */
module ExtractorProofs {
  import opened Wrappers
  import opened JsonValues
  import opened PyStr
  import opened Extractor

  // ---------------------------------------------------------------------
  // is_nonnull
  // ---------------------------------------------------------------------

  /** The word "null" in any mix of upper and lower case. */
  predicate IsNullWord(t: string)
  {
    && |t| == 4
    && (t[0] == 'n' || t[0] == 'N')
    && (t[1] == 'u' || t[1] == 'U')
    && (t[2] == 'l' || t[2] == 'L')
    && (t[3] == 'l' || t[3] == 'L')
  }

  /** Lower-casing any spelling of "null" gives "null". */
  lemma NullWordLowers(w: string)
    requires IsNullWord(w)
    ensures Lower(w) == "null"
  {
    var l := Lower(w);
    assert l[0] == 'n' && l[1] == 'u' && l[2] == 'l' && l[3] == 'l';
  }

  /** A string `is_nonnull` treats as null: only whitespace, or the word
      "null" in any case with nothing but whitespace around it. */
  ghost predicate IsNullLikeText(s: string)
  {
    || AllSpace(s)
    || exists i :: 0 <= i <= |s| - 4 && AllSpace(s[..i]) && IsNullWord(s[i..i + 4]) && AllSpace(s[i + 4..])
  }

  /** Only a spelling of "null" lower-cases to "null". */
  lemma LowersToNull(t: string)
    requires Lower(t) == "null"
    ensures IsNullWord(t)
  {
    assert LowerChar(t[0]) == 'n' && LowerChar(t[1]) == 'u';
    assert LowerChar(t[2]) == 'l' && LowerChar(t[3]) == 'l';
  }

  /** A string `is_nonnull` rejects is null-like. */
  lemma RejectedIsNullLike(s: string)
    requires !IsNonNull(Str(s))
    ensures IsNullLikeText(s)
  {
    var t := Strip(s);
    StripIsStripOf(s);
    var i :| 0 <= i <= |s| - |t| && s[i..i + |t|] == t && AllSpace(s[..i]) && AllSpace(s[i + |t|..]);
    if Lower(t) == "" {
      assert s[i..] == s[i + |t|..];
      AllSpaceSplit(s, i);
    } else {
      LowersToNull(t);
    }
  }

  /** A null-like string is rejected by `is_nonnull`. */
  lemma NullLikeIsRejected(s: string)
    requires IsNullLikeText(s)
    ensures !IsNonNull(Str(s))
  {
    if AllSpace(s) {
      assert IsStripOf(s, "") by { assert s[0..0] == "" && s[..0] == "" && s[0..] == s; }
      StripUnique(s, "");
    } else {
      var i :| 0 <= i <= |s| - 4 && AllSpace(s[..i]) && IsNullWord(s[i..i + 4]) && AllSpace(s[i + 4..]);
      var w := s[i..i + 4];
      assert IsStripOf(s, w);
      StripUnique(s, w);
      NullWordLowers(w);
    }
  }

  /** `is_nonnull` rejects exactly JSON null and the null-like strings; every
      number, boolean (including false), array, object and other string passes. */
  lemma IsNonNullIff(v: Json)
    ensures IsNonNull(v) <==> !(v == Null || (v.Str? && IsNullLikeText(v.s)))
  {
    if v.Str? {
      if IsNonNull(v) {
        if IsNullLikeText(v.s) { NullLikeIsRejected(v.s); }
      } else {
        RejectedIsNullLike(v.s);
      }
    }
  }

  /** A string with no whitespace at either end is its own strip. */
  lemma StripKeeps(s: string)
    requires |s| > 0 && !IsSpace(s[0]) && !IsSpace(s[|s| - 1])
    ensures Strip(s) == s
  {
    assert s[0..|s|] == s && s[..0] == "" && s[|s|..] == "";
    StripUnique(s, s);
  }

  /** A string with no whitespace at either end and a length other than four
      can be neither blank nor "null" once stripped, so it passes. */
  lemma OtherWordPasses(s: string)
    requires |s| > 0 && !IsSpace(s[0]) && !IsSpace(s[|s| - 1]) && |s| != 4
    ensures IsNonNull(Str(s))
  {
    StripKeeps(s);
    assert |Lower(s)| == |s|;
  }

  /** Blank and differently-cased "null" strings are rejected, like JSON null. */
  lemma NullLikeExamples()
    ensures !IsNonNull(Null)
    ensures !IsNonNull(Str(" "))
    ensures !IsNonNull(Str(" Null\t"))
  {
    assert AllSpace(" ");
    NullLikeIsRejected(" ");
    var s := " Null\t";
    assert AllSpace(s[..1]) && IsNullWord(s[1..5]) && AllSpace(s[5..]);
    NullLikeIsRejected(s);
  }

  /** The number 0, the boolean false and an ordinary identifier all pass. */
  lemma NonNullExamples()
    ensures IsNonNull(Number(0))
    ensures IsNonNull(Bool(false))
    ensures IsNonNull(Str("M1"))
  {
    OtherWordPasses("M1");
  }

  // ---------------------------------------------------------------------
  // extract
  // ---------------------------------------------------------------------

  /** `out` is the projection of the subsequence of `items` picked out by the
      strictly increasing positions `idx`, and those positions are exactly the
      qualifying entries. */
  ghost predicate IsSelection(items: seq<Json>, out: seq<Json>, idx: seq<int>)
  {
    && |idx| == |out|
    && (forall k :: 0 <= k < |idx| ==> 0 <= idx[k] < |items| && IsProjectionOf(out[k], items[idx[k]]))
    && (forall k, l :: 0 <= k < l < |idx| ==> idx[k] < idx[l])
    && (forall i :: 0 <= i < |items| ==> (Qualifies(items[i]) <==> i in idx))
  }

  /** Every position moved one place on, as when an entry is put in front. */
  function Shift(xs: seq<int>): (ys: seq<int>)
    ensures |ys| == |xs|
    ensures forall k :: 0 <= k < |xs| ==> ys[k] == xs[k] + 1
  {
    seq(|xs|, k requires 0 <= k < |xs| => xs[k] + 1)
  }

  lemma ShiftMember(xs: seq<int>, i: int)
    ensures i in Shift(xs) <==> i - 1 in xs
  {
    if i - 1 in xs {
      var k :| 0 <= k < |xs| && xs[k] == i - 1;
      assert Shift(xs)[k] == i;
    }
  }

  /** The positions of the qualifying entries of `items`, in increasing order. */
  ghost function Positions(items: seq<Json>): seq<int>
  {
    if items == [] then []
    else (if Qualifies(items[0]) then [0] else []) + Shift(Positions(items[1..]))
  }

  lemma {:induction false} PositionsLength(items: seq<Json>)
    ensures |Positions(items)| == |Extract(items)|
  {
    if items != [] {
      PositionsLength(items[1..]);
    }
  }

  lemma {:induction false} PositionsInRange(items: seq<Json>)
    ensures forall k :: 0 <= k < |Positions(items)| ==> 0 <= Positions(items)[k] < |items|
  {
    if items != [] {
      PositionsInRange(items[1..]);
    }
  }

  lemma {:induction false} PositionsIncreasing(items: seq<Json>)
    ensures forall k, l :: 0 <= k < l < |Positions(items)| ==> Positions(items)[k] < Positions(items)[l]
  {
    if items != [] {
      PositionsIncreasing(items[1..]);
      PositionsInRange(items[1..]);
    }
  }

  /** The `k`-th record emitted is the projection of the entry at the `k`-th
      qualifying position. */
  ghost predicate ProjectsAt(items: seq<Json>, pos: seq<int>, out: seq<Json>, k: int)
    requires 0 <= k < |pos| && k < |out|
  {
    0 <= pos[k] < |items| && items[pos[k]].Object? && out[k] == Object(Project(items[pos[k]].fields))
  }

  lemma {:induction false} PositionsProject(items: seq<Json>)
    ensures |Positions(items)| == |Extract(items)|
    ensures forall k :: 0 <= k < |Positions(items)| ==> ProjectsAt(items, Positions(items), Extract(items), k)
  {
    PositionsLength(items);
    if items != [] {
      var tail := items[1..];
      PositionsProject(tail);
      var p, rest := Positions(tail), Extract(tail);
      var pos, out := Positions(items), Extract(items);
      assert out == Emitted(items[0]) + rest;
      if Qualifies(items[0]) {
        assert pos == [0] + Shift(p);
        assert out == [Object(Project(items[0].fields))] + rest;
        forall k | 0 <= k < |pos| ensures ProjectsAt(items, pos, out, k) {
          if k > 0 {
            assert ProjectsAt(tail, p, rest, k - 1);
            assert pos[k] == p[k - 1] + 1 && out[k] == rest[k - 1];
          }
        }
      } else {
        assert pos == Shift(p) && out == rest;
        forall k | 0 <= k < |pos| ensures ProjectsAt(items, pos, out, k) {
          assert ProjectsAt(tail, p, rest, k);
          assert pos[k] == p[k] + 1;
        }
      }
    }
  }

  lemma {:induction false} PositionsExact(items: seq<Json>)
    ensures forall i :: 0 <= i < |items| ==> (Qualifies(items[i]) <==> i in Positions(items))
  {
    if items != [] {
      var tail := items[1..];
      PositionsExact(tail);
      PositionsInRange(tail);
      var p := Positions(tail);
      var head := if Qualifies(items[0]) then [0] else [];
      assert Positions(items) == head + Shift(p);
      forall i | 0 <= i < |items| ensures Qualifies(items[i]) <==> i in Positions(items) {
        ShiftMember(p, i);
        if i > 0 {
          assert items[i] == tail[i - 1];
        }
      }
    }
  }

  /** The main theorem about `extract`: it keeps the qualifying entries and no
      others, each exactly once, in input order, projected to the four output
      keys with values copied verbatim. */
  lemma ExtractIsSelection(items: seq<Json>)
    ensures exists idx :: IsSelection(items, Extract(items), idx)
  {
    PositionsProject(items);
    PositionsIncreasing(items);
    PositionsExact(items);
    var pos := Positions(items);
    forall k | 0 <= k < |pos| ensures 0 <= pos[k] < |items| && IsProjectionOf(Extract(items)[k], items[pos[k]]) {
      assert ProjectsAt(items, pos, Extract(items), k);
      ProjectIsProjection(items[pos[k]]);
    }
    assert IsSelection(items, Extract(items), pos);
  }

  /** Soundness: every emitted record is the projection of some qualifying entry. */
  lemma ExtractSound(items: seq<Json>, k: int)
    requires 0 <= k < |Extract(items)|
    ensures exists i :: 0 <= i < |items| && Qualifies(items[i]) && IsProjectionOf(Extract(items)[k], items[i])
  {
    ExtractIsSelection(items);
    var idx :| IsSelection(items, Extract(items), idx);
    assert idx[k] in idx;
  }

  /** Completeness: every qualifying entry is emitted, at a position of its own. */
  lemma ExtractComplete(items: seq<Json>, i: int)
    requires 0 <= i < |items| && Qualifies(items[i])
    ensures exists k :: 0 <= k < |Extract(items)| && IsProjectionOf(Extract(items)[k], items[i])
  {
    ExtractIsSelection(items);
    var idx :| IsSelection(items, Extract(items), idx);
    var k :| 0 <= k < |idx| && idx[k] == i;
  }

  /** An entry that does not qualify, malformed ones included, leaves the
      output exactly as if it were absent: skipping it never aborts the pass. */
  lemma DroppedEntryInvisible(a: seq<Json>, v: Json, b: seq<Json>)
    requires !Qualifies(v)
    ensures Extract(a + [v] + b) == Extract(a + b)
  {
    assert Emitted(v) == [];
    assert Extract([v]) == [] by {
      assert [v][1..] == [];
    }
    ExtractAppend(a + [v], b);
    ExtractAppend(a, [v]);
    ExtractAppend(a, b);
  }

  // ---------------------------------------------------------------------
  // normalisation of the top-level document
  // ---------------------------------------------------------------------

  /** A document wrapping an array under "data" yields the same records as
      the bare array, whatever else the wrapper holds. */
  lemma WrappedEqualsBare(m: map<string, Json>, xs: seq<Json>)
    requires "data" in m && m["data"] == Array(xs)
    ensures Run(Object(m)) == Run(Array(xs))
  {
    assert HoldsList(m, ContainerKeys[0]);
  }

  /** A key earlier in the priority order that holds a non-list is passed
      over: only a list under a later key, or the object itself, is used. */
  lemma NonListKeyPassedOver(m: map<string, Json>, xs: seq<Json>)
    requires "data" in m && !m["data"].Array?
    requires "items" in m && m["items"] == Array(xs)
    ensures Normalize(Object(m)) == Success(xs)
  {
    assert !HoldsList(m, ContainerKeys[0]) && HoldsList(m, ContainerKeys[1]);
  }

  // ---------------------------------------------------------------------
  // the whole run
  // ---------------------------------------------------------------------

  const Acme: map<string, Json> := map["country_filter" := Str("SG"), "base_mpd" := Str("M1"),
    "merchantName" := Str("Acme"), "merchant_slug" := Str("acme"), "trackingLink" := Str("http://x")]
  const Us: map<string, Json> := map["country_filter" := Str("US"), "base_mpd" := Str("M2")]
  const NoMpd: map<string, Json> := map["country_filter" := Str("SG"), "base_mpd" := Null]
  const Beta: map<string, Json> := map["country_filter" := Str("SG"), "base_mpd" := Str("M3"),
    "merchantName" := Str("Beta"), "merchant_slug" := Str("beta"), "trackingLink" := Str("http://y")]
  const AcmeOut: map<string, Json> := map["base_mpd" := Str("M1"), "merchantName" := Str("Acme"),
    "merchant_slug" := Str("acme"), "trackingLink" := Str("http://x")]
  const BetaOut: map<string, Json> := map["base_mpd" := Str("M3"), "merchantName" := Str("Beta"),
    "merchant_slug" := Str("beta"), "trackingLink" := Str("http://y")]

  /** The first kept entry of the worked example emits its projection. */
  lemma AcmeKept()
    ensures Emitted(Object(Acme)) == [Object(AcmeOut)]
  {
    OtherWordPasses("M1");
    assert Project(Acme) == AcmeOut;
  }

  /** The second kept entry of the worked example emits its projection. */
  lemma BetaKept()
    ensures Emitted(Object(Beta)) == [Object(BetaOut)]
  {
    OtherWordPasses("M3");
    assert Project(Beta) == BetaOut;
  }

  /** The dropped entries of the worked example: a country other than "SG",
      and a null `base_mpd`. */
  lemma ExampleDropped()
    ensures Emitted(Object(Us)) == []
    ensures Emitted(Object(NoMpd)) == []
  {
    assert Us["country_filter"] != Str("SG");
    assert !IsNonNull(NoMpd["base_mpd"]);
  }

  /** The last two entries of the worked example yield only Beta's record. */
  lemma ExampleLastTwo()
    ensures Extract([Object(NoMpd), Object(Beta)]) == [Object(BetaOut)]
  {
    BetaKept();
    ExampleDropped();
    var items := [Object(NoMpd), Object(Beta)];
    assert items[1..] == [Object(Beta)] && items[1..][1..] == [];
  }

  /** The last three entries of the worked example yield only Beta's record. */
  lemma ExampleSuffix()
    ensures Extract([Object(Us), Object(NoMpd), Object(Beta)]) == [Object(BetaOut)]
  {
    ExampleDropped();
    ExampleLastTwo();
    var items := [Object(Us), Object(NoMpd), Object(Beta)];
    assert items[1..] == [Object(NoMpd), Object(Beta)];
  }

  /** The worked example entry list through `extract`: the "US" entry and
      the one with a null `base_mpd` are dropped, the other two projected in
      input order. */
  lemma ExampleExtract()
    ensures Extract([Object(Acme), Object(Us), Object(NoMpd), Object(Beta)])
         == [Object(AcmeOut), Object(BetaOut)]
  {
    AcmeKept();
    ExampleSuffix();
    var items := [Object(Acme), Object(Us), Object(NoMpd), Object(Beta)];
    assert items[1..] == [Object(Us), Object(NoMpd), Object(Beta)];
  }

  /** The worked example as a whole run, and the same list wrapped under
      "data": both write the same two records. */
  lemma FourEntryExample()
    ensures Run(Array([Object(Acme), Object(Us), Object(NoMpd), Object(Beta)]))
         == Success([Object(AcmeOut), Object(BetaOut)])
    ensures Run(Object(map["data" := Array([Object(Acme), Object(Us), Object(NoMpd), Object(Beta)])]))
         == Success([Object(AcmeOut), Object(BetaOut)])
  {
    var items := [Object(Acme), Object(Us), Object(NoMpd), Object(Beta)];
    ExampleExtract();
    WrappedEqualsBare(map["data" := Array(items)], items);
  }
}
