/** Monthly aggregator (`calcMonthly`, dashboard.js): income and expense totals, the
    balance, and the net amount per calendar month as two aligned sorted sequences. */
module Monthly {
  import opened Wrappers
  import opened Text
  import opened Rows

  const Ingreso: string := "Ingreso"
  const Gasto: string := "Gasto"

  /** `d.tipo === kind`: strict equality, so only a text cell with exactly that value. */
  predicate IsKind(t: Transaction, kind: string)
  {
    t.tipo == Str(kind)
  }

  /** `data.filter(d => d.tipo === kind)`. */
  function OfKind(data: seq<Transaction>, kind: string): (r: seq<Transaction>)
    ensures |r| <= |data|
    ensures forall t :: t in r <==> t in data && IsKind(t, kind)
  {
    if data == [] then []
    else
      var init, last := data[..|data| - 1], data[|data| - 1];
      assert data == init + [last];
      OfKind(init, kind) + (if IsKind(last, kind) then [last] else [])
  }

  /** `.reduce((s, x) => s + x.monto, 0)`, folding from the left. */
  function SumMonto(ts: seq<Transaction>): real
  {
    if ts == [] then 0.0 else SumMonto(ts[..|ts| - 1]) + ts[|ts| - 1].monto
  }

  /** Total income: the amounts of the "Ingreso" rows. */
  function Ingresos(data: seq<Transaction>): real
  {
    SumMonto(OfKind(data, Ingreso))
  }

  /** Total expenses: the amounts of the "Gasto" rows. */
  function Gastos(data: seq<Transaction>): real
  {
    SumMonto(OfKind(data, Gasto))
  }

  lemma {:induction false} OfKindAppend(a: seq<Transaction>, b: seq<Transaction>, kind: string)
    ensures OfKind(a + b, kind) == OfKind(a, kind) + OfKind(b, kind)
    decreases |b|
  {
    if b != [] {
      var b' := b[..|b| - 1];
      assert (a + b)[..|a + b| - 1] == a + b';
      OfKindAppend(a, b', kind);
    } else {
      assert a + b == a;
    }
  }

  lemma {:induction false} SumMontoAppend(a: seq<Transaction>, b: seq<Transaction>)
    ensures SumMonto(a + b) == SumMonto(a) + SumMonto(b)
    decreases |b|
  {
    if b != [] {
      var b' := b[..|b| - 1];
      assert (a + b)[..|a + b| - 1] == a + b';
      SumMontoAppend(a, b');
    } else {
      assert a + b == a;
    }
  }

  /** Totals are additive over any split of the rows. */
  lemma TotalsAppend(a: seq<Transaction>, b: seq<Transaction>)
    ensures Ingresos(a + b) == Ingresos(a) + Ingresos(b)
    ensures Gastos(a + b) == Gastos(a) + Gastos(b)
  {
    OfKindAppend(a, b, Ingreso);
    SumMontoAppend(OfKind(a, Ingreso), OfKind(b, Ingreso));
    OfKindAppend(a, b, Gasto);
    SumMontoAppend(OfKind(a, Gasto), OfKind(b, Gasto));
  }

  /** What one row adds to the totals: its amount to income if its tipo is "Ingreso",
      to expenses if it is "Gasto", and nothing to either otherwise. */
  lemma TotalsOfOneRow(a: seq<Transaction>, t: Transaction, b: seq<Transaction>)
    ensures Ingresos(a + [t] + b) == Ingresos(a + b) + (if IsKind(t, Ingreso) then t.monto else 0.0)
    ensures Gastos(a + [t] + b) == Gastos(a + b) + (if IsKind(t, Gasto) then t.monto else 0.0)
  {
    TotalsAppend(a + [t], b);
    TotalsAppend(a, [t]);
    TotalsAppend(a, b);
    assert OfKind([t], Ingreso) == OfKind([], Ingreso) + (if IsKind(t, Ingreso) then [t] else []);
    assert OfKind([t], Gasto) == OfKind([], Gasto) + (if IsKind(t, Gasto) then [t] else []);
  }

  /** Outcome of resolving a row's month key in the `forEach` callback: a key, the
      early `return` (no usable date), or the TypeError of calling `substr` on a
      truthy `fecha` that is not a string. */
  datatype MonthKey = Keyed(key: string) | Unkeyed | Throws

  /** `new Date(c)` followed, when the date is valid, by `toISOString().substr(0, 7)`.
      A parameter of the model; `None` stands for an invalid date. */
  type DateOracle = Cell -> Option<string>

  /** `undefined` is always an invalid date; any other cell goes to the oracle. */
  function TimestampMonth(c: Cell, dateOf: DateOracle): Option<string>
  {
    if c.Absent? then None else dateOf(c)
  }

  /** `s.substr(0, 7)`. */
  function First7(s: string): string
  {
    s[..Min(7, |s|)]
  }

  function ResolveMonth(t: Transaction, dateOf: DateOracle): (r: MonthKey)
    ensures Truthy(t.fecha) && t.fecha.Str? ==>
      r.Keyed? && r.key <= t.fecha.s && |r.key| == Min(7, |t.fecha.s|)
    ensures Truthy(t.fecha) && !t.fecha.Str? ==> r.Throws?
    ensures !Truthy(t.fecha) ==> !r.Throws?
    ensures !Truthy(t.fecha) ==>
      (r.Keyed? <==> TimestampMonth(t.timestamp, dateOf).Some?) &&
      (r.Keyed? ==> r.key == TimestampMonth(t.timestamp, dateOf).value)
  {
    if Truthy(t.fecha) then
      if t.fecha.Str? then Keyed(First7(t.fecha.s)) else Throws
    else
      match TimestampMonth(t.timestamp, dateOf)
      case Some(m) => Keyed(m)
      case None => Unkeyed
  }

  /** What a keyed row adds to its month: `+monto` for "Ingreso", `-monto` for every
      other tipo, recognised or not. */
  function Signed(t: Transaction): real
  {
    if IsKind(t, Ingreso) then t.monto else -t.monto
  }

  /** Reference definition of a month's net: the signed amounts of the rows whose key
      is `key`, summed in row order. */
  function Net(data: seq<Transaction>, key: string, dateOf: DateOracle): real
  {
    if data == [] then 0.0
    else
      var last := data[|data| - 1];
      Net(data[..|data| - 1], key, dateOf) + (if ResolveMonth(last, dateOf) == Keyed(key) then Signed(last) else 0.0)
  }

  /** Reference definition of the months that appear: the keys of all keyed rows. */
  function KeysOf(data: seq<Transaction>, dateOf: DateOracle): set<string>
  {
    if data == [] then {}
    else
      var last := data[|data| - 1];
      KeysOf(data[..|data| - 1], dateOf) + (if ResolveMonth(last, dateOf).Keyed? then {ResolveMonth(last, dateOf).key} else {})
  }

  /** A key that no row resolves to has net 0. */
  lemma {:induction false} NetOfMissingKey(data: seq<Transaction>, key: string, dateOf: DateOracle)
    requires key !in KeysOf(data, dateOf)
    ensures Net(data, key, dateOf) == 0.0
    decreases |data|
  {
    if data != [] {
      NetOfMissingKey(data[..|data| - 1], key, dateOf);
    }
  }

  /** `labels`, `values` and the totals the dashboard shows. */
  datatype Monthly = Monthly(ingresos: real, gastos: real, balance: real, labels: seq<string>, values: seq<real>)

  /** The exception raised while scanning row `row`. */
  datatype TypeError = TypeError(row: nat)

  /** What `calcMonthly` promises about its result. */
  ghost predicate Describes(m: Monthly, data: seq<Transaction>, dateOf: DateOracle)
  {
    && m.ingresos == Ingresos(data)
    && m.gastos == Gastos(data)
    && m.balance == m.ingresos - m.gastos
    && StrictlyAscending(m.labels)
    && (forall k :: k in m.labels <==> k in KeysOf(data, dateOf))
    && |m.values| == |m.labels|
    && forall j :: 0 <= j < |m.labels| ==> m.values[j] == Net(data, m.labels[j], dateOf)
  }

  /** Row `i` is the first whose month resolution throws. */
  ghost predicate FirstThrowAt(data: seq<Transaction>, dateOf: DateOracle, i: int)
  {
    && 0 <= i < |data|
    && ResolveMonth(data[i], dateOf).Throws?
    && forall j :: 0 <= j < i ==> !ResolveMonth(data[j], dateOf).Throws?
  }

  /** The totals and the series are fully determined by the rows: two results that
      both meet the promise are equal, so re-aggregating the same rows gives the same
      dashboard. */
  lemma DescribesUnique(m1: Monthly, m2: Monthly, data: seq<Transaction>, dateOf: DateOracle)
    requires Describes(m1, data, dateOf) && Describes(m2, data, dateOf)
    ensures m1 == m2
  {
    AscendingUnique(m1.labels, m2.labels);
  }

  /** Aggregating no rows gives zero totals and an empty series. */
  lemma EmptyAggregate(m: Monthly, dateOf: DateOracle)
    requires Describes(m, [], dateOf)
    ensures m == Monthly(0.0, 0.0, 0.0, [], [])
  {
    AscendingUnique(m.labels, []);
  }

  /** The net of every row that has a month key, i.e. what the series adds up to. */
  function KeyedNet(data: seq<Transaction>, dateOf: DateOracle): real
  {
    if data == [] then 0.0
    else
      var last := data[|data| - 1];
      KeyedNet(data[..|data| - 1], dateOf) + (if ResolveMonth(last, dateOf).Keyed? then Signed(last) else 0.0)
  }

  function SumValues(values: seq<real>): real
  {
    if values == [] then 0.0 else values[0] + SumValues(values[1..])
  }

  /** The nets of the given months, added up. */
  function NetOver(labels: seq<string>, data: seq<Transaction>, dateOf: DateOracle): real
  {
    if labels == [] then 0.0 else Net(data, labels[0], dateOf) + NetOver(labels[1..], data, dateOf)
  }

  lemma {:induction false} NetOverNoRows(labels: seq<string>, dateOf: DateOracle)
    ensures NetOver(labels, [], dateOf) == 0.0
    decreases |labels|
  {
    if labels != [] { NetOverNoRows(labels[1..], dateOf); }
  }

  /** One more row changes the nets of distinct months by its signed amount, once, if
      its month is among them. */
  lemma {:induction false} NetOverStep(labels: seq<string>, data: seq<Transaction>, t: Transaction, dateOf: DateOracle)
    requires Distinct(labels)
    ensures NetOver(labels, data + [t], dateOf) ==
      NetOver(labels, data, dateOf) +
      (if ResolveMonth(t, dateOf).Keyed? && ResolveMonth(t, dateOf).key in labels then Signed(t) else 0.0)
    decreases |labels|
  {
    if labels != [] {
      assert (data + [t])[..|data|] == data;
      NetOverStep(labels[1..], data, t, dateOf);
      assert labels == [labels[0]] + labels[1..];
      assert labels[0] !in labels[1..];
    }
  }

  lemma {:induction false} NetOverCoveringLabels(labels: seq<string>, data: seq<Transaction>, dateOf: DateOracle)
    requires Distinct(labels)
    requires forall k :: k in KeysOf(data, dateOf) ==> k in labels
    ensures NetOver(labels, data, dateOf) == KeyedNet(data, dateOf)
    decreases |data|
  {
    if data == [] {
      NetOverNoRows(labels, dateOf);
    } else {
      var init, last := data[..|data| - 1], data[|data| - 1];
      assert data == init + [last];
      NetOverCoveringLabels(labels, init, dateOf);
      NetOverStep(labels, init, last, dateOf);
    }
  }

  lemma {:induction false} ValuesAddUp(labels: seq<string>, values: seq<real>, data: seq<Transaction>, dateOf: DateOracle)
    requires |values| == |labels|
    requires forall j :: 0 <= j < |labels| ==> values[j] == Net(data, labels[j], dateOf)
    ensures SumValues(values) == NetOver(labels, data, dateOf)
    decreases |labels|
  {
    if labels != [] { ValuesAddUp(labels[1..], values[1..], data, dateOf); }
  }

  /** The chart series adds up to the net of all rows that have a month key. */
  lemma SeriesAddsUpToKeyedNet(m: Monthly, data: seq<Transaction>, dateOf: DateOracle)
    requires Describes(m, data, dateOf)
    ensures SumValues(m.values) == KeyedNet(data, dateOf)
  {
    forall i, j | 0 <= i < j < |m.labels| ensures m.labels[i] != m.labels[j] {
      BelowIrreflexive(m.labels[i]);
    }
    ValuesAddUp(m.labels, m.values, data, dateOf);
    NetOverCoveringLabels(m.labels, data, dateOf);
  }

  /** When every row has a month key and is an "Ingreso" or a "Gasto", the keyed net
      is exactly the balance. */
  lemma {:induction false} KeyedNetIsBalance(data: seq<Transaction>, dateOf: DateOracle)
    requires forall i :: 0 <= i < |data| ==> IsKind(data[i], Ingreso) || IsKind(data[i], Gasto)
    requires forall i :: 0 <= i < |data| ==> ResolveMonth(data[i], dateOf).Keyed?
    ensures KeyedNet(data, dateOf) == Ingresos(data) - Gastos(data)
    decreases |data|
  {
    if data != [] {
      var init, last := data[..|data| - 1], data[|data| - 1];
      assert data == init + [last];
      KeyedNetIsBalance(init, dateOf);
      TotalsAppend(init, [last]);
      assert OfKind([last], Ingreso) == OfKind([], Ingreso) + (if IsKind(last, Ingreso) then [last] else []);
      assert OfKind([last], Gasto) == OfKind([], Gasto) + (if IsKind(last, Gasto) then [last] else []);
    }
  }

  /** The series and the totals can disagree: a keyed row whose tipo is neither
      "Ingreso" nor "Gasto" is ignored by the totals but subtracted in its month. */
  lemma UnknownTipoSkewsSeries(a: seq<Transaction>, t: Transaction, k: string, dateOf: DateOracle)
    requires !IsKind(t, Ingreso) && !IsKind(t, Gasto) && ResolveMonth(t, dateOf) == Keyed(k)
    ensures Ingresos(a + [t]) == Ingresos(a) && Gastos(a + [t]) == Gastos(a)
    ensures Net(a + [t], k, dateOf) == Net(a, k, dateOf) - t.monto
  {
    TotalsOfOneRow(a, t, []);
    assert a + [t] + [] == a + [t];
    assert a + [] == a;
    assert (a + [t])[..|a + [t]| - 1] == a;
  }

  predicate Distinct(s: seq<string>)
  {
    forall i, j :: 0 <= i < j < |s| ==> s[i] != s[j]
  }

  /** Places `x` in a strictly ascending sequence that does not yet hold it. */
  function Insert(x: string, s: seq<string>): (r: seq<string>)
    requires StrictlyAscending(s) && x !in s
    ensures StrictlyAscending(r)
    ensures |r| == |s| + 1
    ensures forall y :: y in r <==> y in s || y == x
  {
    if s == [] then [x]
    else if Below(x, s[0]) then
      assert forall j :: 0 < j < |s| ==> Below(x, s[j]) by {
        forall j | 0 < j < |s| ensures Below(x, s[j]) { BelowTransitive(x, s[0], s[j]); }
      }
      [x] + s
    else
      BelowTotal(x, s[0]);
      var rest := Insert(x, s[1..]);
      assert forall j :: 0 <= j < |rest| ==> Below(s[0], rest[j]) by {
        forall j | 0 <= j < |rest| ensures Below(s[0], rest[j]) {
          if rest[j] != x {
            assert rest[j] in rest && rest[j] in s[1..];
            var k :| 0 <= k < |s[1..]| && s[1..][k] == rest[j];
            assert s[k + 1] == rest[j];
          }
        }
      }
      assert forall y :: y in s <==> y == s[0] || y in s[1..] by {
        assert s == [s[0]] + s[1..];
      }
      [s[0]] + rest
  }

  /** `Object.keys(months).sort()`: the distinct month keys in ascending order. */
  function SortKeys(keys: seq<string>): (r: seq<string>)
    requires Distinct(keys)
    ensures StrictlyAscending(r)
    ensures |r| == |keys|
    ensures forall y :: y in r <==> y in keys
  {
    if keys == [] then []
    else
      var init, last := keys[..|keys| - 1], keys[|keys| - 1];
      assert keys == init + [last];
      Insert(last, SortKeys(init))
  }

  /** The last step of `calcMonthly`: the sorted keys of the month dictionary and the
      value of each; once the dictionary holds every month's net, the result meets the
      promise. */
  function Assemble(ingresos: real, gastos: real, months: map<string, real>, order: seq<string>,
                    ghost data: seq<Transaction>, ghost dateOf: DateOracle): (m: Monthly)
    requires ingresos == Ingresos(data) && gastos == Gastos(data)
    requires forall k :: k in months <==> k in KeysOf(data, dateOf)
    requires forall k :: k in months ==> months[k] == Net(data, k, dateOf)
    requires forall k :: k in order <==> k in months
    requires Distinct(order)
    ensures Describes(m, data, dateOf)
  {
    var labels := SortKeys(order);
    var values := seq(|labels|, j requires 0 <= j < |labels| => months[labels[j]]);
    Monthly(ingresos, gastos, ingresos - gastos, labels, values)
  }

  /** `calcMonthly(data)`: totals by filter-and-reduce, then a `forEach` that builds the
      month dictionary in place, then the sorted keys and their values. */
  method CalcMonthly(data: seq<Transaction>, dateOf: DateOracle) returns (r: Result<Monthly, TypeError>)
    ensures r.Success? <==> forall i :: 0 <= i < |data| ==> !ResolveMonth(data[i], dateOf).Throws?
    ensures r.Success? ==> Describes(r.value, data, dateOf)
    ensures r.Failure? ==> FirstThrowAt(data, dateOf, r.error.row)
  {
    var ingresos := Ingresos(data);
    var gastos := Gastos(data);

    var months: map<string, real> := map[];
    var order: seq<string> := [];   // Object.keys order before sorting
    var i := 0;
    while i < |data|
      invariant 0 <= i <= |data|
      invariant forall j :: 0 <= j < i ==> !ResolveMonth(data[j], dateOf).Throws?
      invariant forall k :: k in months <==> k in KeysOf(data[..i], dateOf)
      invariant forall k :: k in months ==> months[k] == Net(data[..i], k, dateOf)
      invariant forall k :: k in order <==> k in months
      invariant Distinct(order)
    {
      var d := data[i];
      assert data[..i + 1][..i] == data[..i];
      match ResolveMonth(d, dateOf) {
        case Throws =>
          return Failure(TypeError(i));
        case Unkeyed =>
        case Keyed(m) =>
          // `if (!months[m]) months[m] = 0;` resets only an entry that is absent or already 0
          if m !in months {
            NetOfMissingKey(data[..i], m, dateOf);
            months := months[m := 0.0];
            order := order + [m];
          }
          months := months[m := months[m] + Signed(d)];
      }
      i := i + 1;
    }
    assert data[..|data|] == data;
    r := Success(Assemble(ingresos, gastos, months, order, data, dateOf));
  }
}
