/** The filter descriptors of store.ts, the predicate each one stands for, and the
    pipeline `applyFilters` runs them through. */
module Filters {
  import opened Wrappers
  import opened Records
  import opened Text
  import opened Seqs

  /** A filter descriptor. Which of `includes`, `matches`, `excludes` decides is chosen by
      JavaScript truthiness: an absent or empty text does not count as set. */
  datatype Filter = Filter(
    id: string,
    name: string,
    field: string,
    includes: Option<string>,
    matches: Option<string>,
    excludes: Option<string>)

  /** The TypeError a predicate throws when the field it reads is not a string
      (`undefined.includes`, `(42).trim`, ...). */
  datatype Fault = NotAString(filterId: string, found: Value)

  /** JavaScript truthiness of an optional string. */
  predicate IsSet(o: Option<string>) {
    o.Some? && o.value != ""
  }

  /** `getField(mr, f.field)`. */
  function FieldOf(f: Filter, mr: Value): Value {
    Resolve(mr, Split(f.field))
  }

  /** The predicate of one descriptor on one record, as the nested conditional of
      `applyFilters` evaluates it: the first set text decides, and with none set the
      record is rejected without reading the field. */
  function Evaluate(f: Filter, mr: Value): Result<bool, Fault> {
    if IsSet(f.includes) then
      match FieldOf(f, mr)
      case Str(s) => Ok(Includes(s, f.includes.value))
      case v => Err(NotAString(f.id, v))
    else if IsSet(f.matches) then
      match FieldOf(f, mr)
      case Str(s) => Ok(Trim(s) == Trim(f.matches.value))
      case v => Err(NotAString(f.id, v))
    else if IsSet(f.excludes) then
      match FieldOf(f, mr)
      case Str(s) => Ok(!Includes(s, f.excludes.value))
      case v => Err(NotAString(f.id, v))
    else
      Ok(false)
  }

  predicate Passes(f: Filter, mr: Value) {
    Evaluate(f, mr) == Ok(true)
  }

  /** The record passes every filter of `fs`. */
  predicate PassesAll(fs: seq<Filter>, mr: Value) {
    forall k :: 0 <= k < |fs| ==> Passes(fs[k], mr)
  }

  /** Evaluating `fs` in turn on `mr` throws: some filter faults on it after all the
      filters before it have let it through. */
  predicate FaultsOn(fs: seq<Filter>, mr: Value) {
    exists j :: 0 <= j < |fs| && PassesAll(fs[..j], mr) && Evaluate(fs[j], mr).Err?
  }

  function PassTest(f: Filter): Value -> bool {
    mr => Passes(f, mr)
  }

  function AllPassTest(fs: seq<Filter>): Value -> bool {
    mr => PassesAll(fs, mr)
  }

  /** `recs.filter(pred)` with a predicate that may throw: the records are tested in
      order and the first throw escapes. */
  function KeepPassing(recs: seq<Value>, f: Filter): Result<seq<Value>, Fault> {
    if recs == [] then Ok([])
    else
      match Evaluate(f, recs[0])
      case Err(e) => Err(e)
      case Ok(b) =>
        match KeepPassing(recs[1..], f)
        case Err(e) => Err(e)
        case Ok(rest) => Ok((if b then [recs[0]] else []) + rest)
  }

  /** `applyFilters`: the records piped through each filter of `fs` in turn; the last
      filter is applied to what the others left. */
  function Pipeline(recs: seq<Value>, fs: seq<Filter>): Result<seq<Value>, Fault>
    decreases |fs|
  {
    if fs == [] then Ok(recs)
    else
      match Pipeline(recs, fs[..|fs| - 1])
      case Err(e) => Err(e)
      case Ok(mid) => KeepPassing(mid, fs[|fs| - 1])
  }

  // ---------------------------------------------------------------------------
  // One filter

  /** A single `filter` succeeds exactly when the predicate succeeds on every record,
      and then keeps the records it accepts, in order. */
  lemma {:induction false} KeepPassingSpec(recs: seq<Value>, f: Filter)
    ensures KeepPassing(recs, f).Ok? <==> forall x :: x in recs ==> Evaluate(f, x).Ok?
    ensures KeepPassing(recs, f).Ok? ==> KeepPassing(recs, f).value == Select(recs, PassTest(f))
  {
    if recs != [] {
      KeepPassingSpec(recs[1..], f);
      assert forall x :: x in recs <==> x == recs[0] || x in recs[1..];
    }
  }

  // ---------------------------------------------------------------------------
  // The pipeline

  lemma PassesAllSnoc(fs: seq<Filter>, f: Filter, mr: Value)
    ensures PassesAll(fs + [f], mr) <==> PassesAll(fs, mr) && Passes(f, mr)
  {
    assert forall k :: 0 <= k < |fs| ==> (fs + [f])[k] == fs[k];
    assert (fs + [f])[|fs|] == f;
  }

  lemma FaultsOnSnoc(fs: seq<Filter>, f: Filter, mr: Value)
    ensures FaultsOn(fs + [f], mr) <==> FaultsOn(fs, mr) || (PassesAll(fs, mr) && Evaluate(f, mr).Err?)
  {
    var g := fs + [f];
    assert forall j :: 0 <= j <= |fs| ==> g[..j] == fs[..j];
    assert g[|fs|] == f;
    if FaultsOn(g, mr) {
      var j :| 0 <= j < |g| && PassesAll(g[..j], mr) && Evaluate(g[j], mr).Err?;
      if j < |fs| {
        assert g[j] == fs[j];
      }
    }
    if FaultsOn(fs, mr) {
      var j :| 0 <= j < |fs| && PassesAll(fs[..j], mr) && Evaluate(fs[j], mr).Err?;
      assert g[..j] == fs[..j] && g[j] == fs[j];
    }
    if PassesAll(fs, mr) && Evaluate(f, mr).Err? {
      assert fs[..|fs|] == fs;
      assert PassesAll(g[..|fs|], mr);
    }
  }

  /** What `applyFilters` computes: it throws exactly when some record faults on the
      filters it reaches, and otherwise returns, in their original order, exactly the
      records that pass every filter. */
  lemma {:induction false} PipelineSpec(recs: seq<Value>, fs: seq<Filter>)
    ensures Pipeline(recs, fs).Ok? <==> forall x :: x in recs ==> !FaultsOn(fs, x)
    ensures Pipeline(recs, fs).Ok? ==> Pipeline(recs, fs).value == Select(recs, AllPassTest(fs))
    decreases |fs|
  {
    if fs == [] {
      SelectAll(recs, AllPassTest(fs));
    } else {
      var front, f := fs[..|fs| - 1], fs[|fs| - 1];
      assert fs == front + [f];
      PipelineSpec(recs, front);
      forall x ensures FaultsOn(fs, x) <==> FaultsOn(front, x) || (PassesAll(front, x) && Evaluate(f, x).Err?) {
        FaultsOnSnoc(front, f, x);
      }
      match Pipeline(recs, front)
      case Err(_) =>
        var x :| x in recs && FaultsOn(front, x);
        assert FaultsOn(fs, x);
      case Ok(mid) =>
        KeepPassingSpec(mid, f);
        forall x ensures x in mid <==> x in recs && PassesAll(front, x) {
          SelectMembership(recs, AllPassTest(front), x);
        }
        forall k | 0 <= k < |recs|
          ensures AllPassTest(fs)(recs[k]) == (AllPassTest(front)(recs[k]) && PassTest(f)(recs[k]))
        {
          PassesAllSnoc(front, f, recs[k]);
        }
        SelectSelect(recs, AllPassTest(front), PassTest(f), AllPassTest(fs));
    }
  }

  /** Once a prefix of the filters has thrown, the whole pipeline throws the same error. */
  lemma {:induction false} PipelineFaultPersists(recs: seq<Value>, fs: seq<Filter>, n: nat, e: Fault)
    requires n <= |fs| && Pipeline(recs, fs[..n]) == Err(e)
    ensures Pipeline(recs, fs) == Err(e)
    decreases |fs| - n
  {
    if n < |fs| {
      assert fs[..n + 1][..n] == fs[..n];
      PipelineFaultPersists(recs, fs, n + 1, e);
    } else {
      assert fs[..n] == fs;
    }
  }

  /** With no filters `applyFilters` returns its input unchanged. */
  lemma NoFiltersIsIdentity(recs: seq<Value>)
    ensures Pipeline(recs, []) == Ok(recs)
  {
  }

  /** The result of `applyFilters` is an order-preserving subsequence of its input. */
  lemma PipelineIsSubsequence(recs: seq<Value>, fs: seq<Filter>)
    requires Pipeline(recs, fs).Ok?
    ensures IsSubsequence(Pipeline(recs, fs).value, recs)
  {
    PipelineSpec(recs, fs);
    SelectIsSubsequence(recs, AllPassTest(fs));
  }

  /** Filters compose by AND: a record survives iff it passes every filter. */
  lemma PipelineMembership(recs: seq<Value>, fs: seq<Filter>, x: Value)
    requires Pipeline(recs, fs).Ok?
    ensures x in Pipeline(recs, fs).value <==> x in recs && PassesAll(fs, x)
  {
    PipelineSpec(recs, fs);
    SelectMembership(recs, AllPassTest(fs), x);
  }

  /** Applying the filters to their own output changes nothing, and does not throw. */
  lemma PipelineIdempotent(recs: seq<Value>, fs: seq<Filter>)
    requires Pipeline(recs, fs).Ok?
    ensures Pipeline(Pipeline(recs, fs).value, fs) == Pipeline(recs, fs)
  {
    var out := Pipeline(recs, fs).value;
    PipelineSpec(recs, fs);
    PipelineSpec(out, fs);
    forall x | x in out ensures !FaultsOn(fs, x) {
      SelectMembership(recs, AllPassTest(fs), x);
      assert forall j :: 0 <= j < |fs| ==> Evaluate(fs[j], x).Ok?;
    }
    SelectSelect(recs, AllPassTest(fs), AllPassTest(fs), AllPassTest(fs));
  }

  /** The order of the filters does not change the result when both orders succeed. */
  lemma PipelineOrderIrrelevant(recs: seq<Value>, fs: seq<Filter>, gs: seq<Filter>)
    requires forall f :: f in fs <==> f in gs
    requires Pipeline(recs, fs).Ok? && Pipeline(recs, gs).Ok?
    ensures Pipeline(recs, fs) == Pipeline(recs, gs)
  {
    PipelineSpec(recs, fs);
    PipelineSpec(recs, gs);
    forall k | 0 <= k < |recs| ensures AllPassTest(fs)(recs[k]) == AllPassTest(gs)(recs[k]) {
      var x := recs[k];
      if PassesAll(fs, x) {
        forall i | 0 <= i < |gs| ensures Passes(gs[i], x) {
          assert gs[i] in fs;
        }
      }
      if PassesAll(gs, x) {
        forall i | 0 <= i < |fs| ensures Passes(fs[i], x) {
          assert fs[i] in gs;
        }
      }
    }
    SelectAgree(recs, AllPassTest(fs), AllPassTest(gs));
  }

  /** The order of the filters can decide whether `applyFilters` throws: a filter with no
      text set removes every record, so a filter after it never reads a field. */
  lemma OrderDecidesFault()
    ensures var rejectAll := Filter("a", "A", "title", None, None, None);
            var onTitle := Filter("b", "B", "title", Some("x"), None, None);
            var recs := [Obj(map[])];
            Pipeline(recs, [rejectAll, onTitle]) == Ok([])
            && Pipeline(recs, [onTitle, rejectAll]) == Err(NotAString("b", Undefined))
  {
    var rejectAll := Filter("a", "A", "title", None, None, None);
    var onTitle := Filter("b", "B", "title", Some("x"), None, None);
    var recs := [Obj(map[])];
    assert Split("title") == ["title"] by { SingleSegment(Obj(map[]), "title"); }
    assert Evaluate(rejectAll, Obj(map[])) == Ok(false);
    assert Evaluate(onTitle, Obj(map[])) == Err(NotAString("b", Undefined));
    assert [rejectAll, onTitle][..1] == [rejectAll];
    assert [onTitle, rejectAll][..1] == [onTitle];
    assert [rejectAll][..0] == [];
    assert [onTitle][..0] == [];
    assert recs[1..] == [];
    assert KeepPassing(recs[1..], rejectAll) == Ok([]);
    assert Evaluate(rejectAll, recs[0]) == Ok(false);
    var none: seq<Value> := [];
    assert KeepPassing(recs, rejectAll) == Ok(none + none);
    assert none + none == none;
    assert Pipeline(recs, [rejectAll]) == KeepPassing(recs, rejectAll) == Ok(none);
    assert Pipeline(recs, [onTitle]) == KeepPassing(recs, onTitle) == Err(NotAString("b", Undefined));
  }

  // ---------------------------------------------------------------------------
  // Which text decides

  /** A set `includes` decides alone, by a substring test on a string field. */
  lemma IncludesDecides(f: Filter, mr: Value, m: Option<string>, e: Option<string>)
    requires IsSet(f.includes)
    ensures Evaluate(f.(matches := m, excludes := e), mr) == Evaluate(f, mr)
    ensures Evaluate(f, mr).Err? <==> !FieldOf(f, mr).Str?
    ensures Passes(f, mr) <==> FieldOf(f, mr).Str? && exists i :: OccursAt(FieldOf(f, mr).s, f.includes.value, i)
  {
  }

  /** Otherwise a set `matches` decides, by equality after trimming both sides;
      `excludes` is then irrelevant. */
  lemma MatchesDecides(f: Filter, mr: Value, i: Option<string>, e: Option<string>)
    requires !IsSet(f.includes) && !IsSet(i) && IsSet(f.matches)
    ensures Evaluate(f.(includes := i, excludes := e), mr) == Evaluate(f, mr)
    ensures Evaluate(f, mr).Err? <==> !FieldOf(f, mr).Str?
    ensures Passes(f, mr) <==> FieldOf(f, mr).Str? && Trim(FieldOf(f, mr).s) == Trim(f.matches.value)
  {
  }

  /** Otherwise a set `excludes` decides, as the exact negation of `includes` with the
      same text: the same records fault, the others get the opposite answer. */
  lemma ExcludesNegatesIncludes(f: Filter, mr: Value)
    requires !IsSet(f.includes) && !IsSet(f.matches) && IsSet(f.excludes)
    ensures var g := f.(includes := f.excludes);
            match Evaluate(g, mr)
            case Ok(b) => Evaluate(f, mr) == Ok(!b)
            case Err(x) => Evaluate(f, mr) == Err(x)
  {
  }

  /** A filter with no text set keeps nothing. */
  lemma {:induction false} UnsetFilterRejectsAll(recs: seq<Value>, fs: seq<Filter>, k: nat)
    requires k < |fs| && !IsSet(fs[k].includes) && !IsSet(fs[k].matches) && !IsSet(fs[k].excludes)
    requires Pipeline(recs, fs).Ok?
    ensures Pipeline(recs, fs) == Ok([])
  {
    PipelineSpec(recs, fs);
    forall i | 0 <= i < |recs| ensures !AllPassTest(fs)(recs[i]) {
      assert Evaluate(fs[k], recs[i]) == Ok(false);
    }
    SelectNone(recs, AllPassTest(fs));
  }
}
