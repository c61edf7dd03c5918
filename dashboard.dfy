/** The `cachedRows` slot and the render paths that use it (dashboard.js): a fetch
    stores into the slot, `refresh` clears it, and `renderFromCache` re-renders from it
    without a network round trip. */
module Dashboard {
  import opened Wrappers
  import opened Rows
  import opened Monthly
  import opened ChartRange

  /** What a render reads besides the rows: the two browser builtins the model does not
      compute, and the text of the range control. */
  datatype Environment = Environment(parseFloat: FloatParser, dateOf: DateOracle, rangeInput: string)

  /** How `fetch(...)` followed by `resp.json()` ends: with the decoded rows, or with an
      exception (network failure, or a body that is not JSON). */
  datatype FetchOutcome = Fetched(rows: seq<Row>) | FetchFailed

  /** The totals shown by `renderUI` and the slice handed to the chart. */
  datatype View = View(monthly: Monthly, chart: Selection)

  /** How one render cycle ends. */
  datatype RenderStep = Shown(view: View) | CalcFailed(error: TypeError) | FetchAborted

  /** `parseRows`, `calcMonthly` and the range slice, applied to `rows`. */
  ghost predicate Renders(step: RenderStep, rows: seq<Row>, env: Environment)
  {
    var data := ParseRows(Some(rows), env.parseFloat);
    match step
    case Shown(view) =>
      && (forall i :: 0 <= i < |data| ==> !ResolveMonth(data[i], env.dateOf).Throws?)
      && Describes(view.monthly, data, env.dateOf)
      && view.chart == SelectForChart(view.monthly.labels, view.monthly.values, env.rangeInput)
    case CalcFailed(e) => FirstThrowAt(data, env.dateOf, e.row)
    case FetchAborted => false
  }

  /** The range text only picks the chart slice: under two environments that agree on
      the builtins, the same rows give the same totals and series, or the same failure,
      and each chart is the slice its own range text selects. */
  lemma RendersAcrossRanges(s1: RenderStep, s2: RenderStep, rows: seq<Row>, env1: Environment, env2: Environment)
    requires env1.parseFloat == env2.parseFloat && env1.dateOf == env2.dateOf
    requires Renders(s1, rows, env1) && Renders(s2, rows, env2)
    ensures s1.Shown? <==> s2.Shown?
    ensures s1.Shown? ==> s1.view.monthly == s2.view.monthly
    ensures s1.Shown? ==> s1.view.chart == SelectForChart(s1.view.monthly.labels, s1.view.monthly.values, env1.rangeInput)
    ensures s2.Shown? ==> s2.view.chart == SelectForChart(s2.view.monthly.labels, s2.view.monthly.values, env2.rangeInput)
    ensures !s1.Shown? ==> s1 == s2
    ensures env1.rangeInput == env2.rangeInput ==> s1 == s2
  {
    var data := ParseRows(Some(rows), env1.parseFloat);
    if s1.Shown? && s2.Shown? {
      DescribesUnique(s1.view.monthly, s2.view.monthly, data, env1.dateOf);
    } else if s1.CalcFailed? && s2.CalcFailed? {
      var i, j := s1.error.row, s2.error.row;
      assert !(i < j) && !(j < i);
    }
  }

  /** Rendering is a function of the rows: the same rows always give the same totals,
      series and chart, or the same failure. */
  lemma RendersUnique(s1: RenderStep, s2: RenderStep, rows: seq<Row>, env: Environment)
    requires Renders(s1, rows, env) && Renders(s2, rows, env)
    ensures s1 == s2
  {
    RendersAcrossRanges(s1, s2, rows, env, env);
  }

  /** The render half of `loadAndRender` and of `renderFromCache`. */
  method Render(rows: seq<Row>, env: Environment) returns (step: RenderStep)
    ensures Renders(step, rows, env)
  {
    var data := ParseRows(Some(rows), env.parseFloat);
    var computed := CalcMonthly(data, env.dateOf);
    match computed {
      case Failure(e) =>
        step := CalcFailed(e);
      case Success(m) =>
        step := Shown(View(m, SelectForChart(m.labels, m.values, env.rangeInput)));
    }
  }

  /** The module-level `cachedRows`: the last fetched rows, or null. */
  class RowCache {
    var slot: Option<seq<Row>>

    /** `let cachedRows = null`. */
    constructor ()
      ensures slot == None
    {
      slot := None;
    }

    /** `cachedRows = rows`, replacing whatever was there. */
    method Store(rows: seq<Row>)
      modifies this
      ensures slot == Some(rows)
    {
      slot := Some(rows);
    }

    /** `cachedRows = null`. */
    method Invalidate()
      modifies this
      ensures slot == None
    {
      slot := None;
    }

    /** Reads the slot and leaves it as it is. */
    method Get() returns (rows: Option<seq<Row>>)
      ensures rows == slot
    {
      rows := slot;
    }
  }

  /** `fetchRows`: a successful fetch stores its rows in the cache and returns them; a
      failed one throws (`None`) before the assignment, leaving the cache as it was. */
  method FetchRows(cache: RowCache, outcome: FetchOutcome) returns (rows: Option<seq<Row>>)
    modifies cache
    ensures outcome.Fetched? ==> rows == Some(outcome.rows) && cache.slot == rows
    ensures outcome.FetchFailed? ==> rows.None? && cache.slot == old(cache.slot)
  {
    match outcome {
      case Fetched(r) =>
        cache.Store(r);
        rows := Some(r);
      case FetchFailed =>
        rows := None;
    }
  }

  /** `loadAndRender`: fetch, then render what was fetched; a failed fetch aborts the
      cycle and nothing is rendered. */
  method LoadAndRender(cache: RowCache, outcome: FetchOutcome, env: Environment) returns (step: RenderStep)
    modifies cache
    ensures outcome.Fetched? ==> cache.slot == Some(outcome.rows) && Renders(step, outcome.rows, env)
    ensures outcome.FetchFailed? ==> cache.slot == old(cache.slot) && step == FetchAborted
  {
    var rows := FetchRows(cache, outcome);
    if rows.None? {
      step := FetchAborted;
    } else {
      step := Render(rows.value, env);
    }
  }

  /** `refresh`: clear the cache, then reload. After a failed reload the cache stays
      empty, so the next range change fetches again. */
  method Refresh(cache: RowCache, outcome: FetchOutcome, env: Environment) returns (step: RenderStep)
    modifies cache
    ensures outcome.Fetched? ==> cache.slot == Some(outcome.rows) && Renders(step, outcome.rows, env)
    ensures outcome.FetchFailed? ==> cache.slot == None && step == FetchAborted
  {
    cache.Invalidate();
    step := LoadAndRender(cache, outcome, env);
  }

  /** `renderFromCache`: with rows cached, render them and leave the cache untouched;
      with nothing cached, fall back to `loadAndRender` (whose fetch ends as `outcome`). */
  method RenderFromCache(cache: RowCache, outcome: FetchOutcome, env: Environment) returns (step: RenderStep)
    modifies cache
    ensures old(cache.slot).Some? ==>
      cache.slot == old(cache.slot) && Renders(step, old(cache.slot).value, env)
    ensures old(cache.slot).None? && outcome.Fetched? ==>
      cache.slot == Some(outcome.rows) && Renders(step, outcome.rows, env)
    ensures old(cache.slot).None? && outcome.FetchFailed? ==>
      cache.slot == None && step == FetchAborted
  {
    var cached := cache.Get();
    if cached.None? {
      step := LoadAndRender(cache, outcome, env);
    } else {
      step := Render(cached.value, env);
    }
  }

  /** Changing the range with rows cached: the two renders differ at most in the chart
      slice. Both succeed or both fail on the same row, the totals and the month series
      are the same, each chart is the slice its own range text selects, and the cache is
      unchanged, whatever a fetch would have returned. With the same range text twice,
      the two renders are identical. */
  method RenderFromCacheTwice(cache: RowCache, outcome1: FetchOutcome, outcome2: FetchOutcome,
                              env1: Environment, env2: Environment)
    returns (first: RenderStep, second: RenderStep)
    requires cache.slot.Some?
    requires env1.parseFloat == env2.parseFloat && env1.dateOf == env2.dateOf
    modifies cache
    ensures cache.slot == old(cache.slot)
    ensures first.Shown? <==> second.Shown?
    ensures first.Shown? ==> first.view.monthly == second.view.monthly
    ensures first.Shown? ==> first.view.chart == SelectForChart(first.view.monthly.labels, first.view.monthly.values, env1.rangeInput)
    ensures second.Shown? ==> second.view.chart == SelectForChart(second.view.monthly.labels, second.view.monthly.values, env2.rangeInput)
    ensures !first.Shown? ==> first == second
    ensures env1.rangeInput == env2.rangeInput ==> first == second
  {
    first := RenderFromCache(cache, outcome1, env1);
    second := RenderFromCache(cache, outcome2, env2);
    RendersAcrossRanges(first, second, cache.slot.value, env1, env2);
  }
}
