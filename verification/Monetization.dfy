/**
 Effective cost: token spend plus each model's monthly infrastructure cost, shared out by requests.
 */
module Monetization {
  datatype Row = Row(model: string, requests: int, spend: real)
  datatype ModelConfig = ModelConfig(name: string, infra: real, markup: real)

  datatype Result = Result(
    totalRequests: int, cost: real, avgCost: real, price: real, avgPrice: real, margin: real, marginPct: real)

  const ZERO := Result(0, 0.0, 0.0, 0.0, 0.0, 0.0, 0.0)

  type Models = map<string, ModelConfig>
  type Counts = map<string, int>

  // A later entry of the same name wins.
  function ByName(models: seq<ModelConfig>): Models {
    if models == [] then map[]
    else ByName(models[..|models| - 1])[models[|models| - 1].name := models[|models| - 1]]
  }

  function Count(counts: Counts, model: string): int {
    if model in counts then counts[model] else 0
  }

  // Infrastructure cost of one request.
  function Rate(ms: Models, counts: Counts, model: string): real {
    if model in ms && ms[model].infra > 0.0 && Count(counts, model) > 0
    then ms[model].infra / Count(counts, model) as real else 0.0
  }

  function Markup(ms: Models, model: string): real {
    if model in ms then ms[model].markup else 0.0
  }

  function RowInfra(ms: Models, counts: Counts, row: Row): real {
    Rate(ms, counts, row.model) * row.requests as real
  }

  function RowCost(ms: Models, counts: Counts, row: Row): real {
    row.spend + RowInfra(ms, counts, row)
  }

  function RowPrice(ms: Models, counts: Counts, row: Row): real {
    RowCost(ms, counts, row) * (1.0 + Markup(ms, row.model) / 100.0)
  }

  function TotalRequests(rows: seq<Row>): int {
    if rows == [] then 0 else TotalRequests(rows[..|rows| - 1]) + rows[|rows| - 1].requests
  }

  function TotalSpend(rows: seq<Row>): real {
    if rows == [] then 0.0 else TotalSpend(rows[..|rows| - 1]) + rows[|rows| - 1].spend
  }

  function TotalCost(ms: Models, counts: Counts, rows: seq<Row>): real {
    if rows == [] then 0.0
    else TotalCost(ms, counts, rows[..|rows| - 1]) + RowCost(ms, counts, rows[|rows| - 1])
  }

  function TotalPrice(ms: Models, counts: Counts, rows: seq<Row>): real {
    if rows == [] then 0.0
    else TotalPrice(ms, counts, rows[..|rows| - 1]) + RowPrice(ms, counts, rows[|rows| - 1])
  }

  function Monetize(ms: Models, counts: Counts, rows: seq<Row>): Result {
    var n, cost, price := TotalRequests(rows), TotalCost(ms, counts, rows), TotalPrice(ms, counts, rows);
    if rows == [] || n == 0 then ZERO
    else
      Result(n, cost, cost / n as real, price, price / n as real, price - cost,
             if price > 0.0 then (price - cost) / price else 0.0)
  }

  // The model configs by name.
  method IndexByName(models: seq<ModelConfig>) returns (cfg: Models)
    ensures cfg == ByName(models)
  {
    cfg := map[];
    for i := 0 to |models|
      invariant cfg == ByName(models[..i])
    {
      assert models[..i + 1][..i] == models[..i];
      cfg := cfg[models[i].name := models[i]];
    }
    assert models[..|models|] == models;
  }

  // One row of the breakdown.
  method RowCharge(cfg: Models, counts: Counts, row: Row) returns (effective: real, markup: real)
    ensures effective == RowCost(cfg, counts, row) && markup == Markup(cfg, row.model)
  {
    effective, markup := row.spend, 0.0;
    if row.model in cfg {
      var m := cfg[row.model];
      if m.infra > 0.0 {
        var total := Count(counts, row.model);
        if total > 0 {
          var perRequest := m.infra / total as real;
          effective := effective + perRequest * row.requests as real;
        }
      }
      markup := m.markup;
    }
    RowCostIs(cfg, counts, row, effective);
  }

  // The loop over the breakdown.
  method Accumulate(cfg: Models, counts: Counts, rows: seq<Row>) returns (requests: int, cost: real, price: real)
    ensures requests == TotalRequests(rows)
    ensures cost == TotalCost(cfg, counts, rows) && price == TotalPrice(cfg, counts, rows)
  {
    hide RowCost, Markup;
    requests, cost, price := 0, 0.0, 0.0;
    for i := 0 to |rows|
      invariant requests == TotalRequests(rows[..i])
      invariant cost == TotalCost(cfg, counts, rows[..i]) && price == TotalPrice(cfg, counts, rows[..i])
    {
      assert rows[..i + 1][..i] == rows[..i];
      var row := rows[i];
      requests := requests + row.requests;
      var effective, markup := RowCharge(cfg, counts, row);
      cost := cost + effective;
      price := price + effective * (1.0 + markup / 100.0);
    }
    assert rows[..|rows|] == rows;
  }

  method ComputeMonetization(rows: seq<Row>, counts: Counts, models: seq<ModelConfig>) returns (r: Result)
    ensures r == Monetize(ByName(models), counts, rows)
  {
    hide TotalCost, TotalPrice, TotalRequests, ByName;
    if |rows| == 0 {
      return ZERO;
    }
    var cfg := IndexByName(models);
    var requests, cost, price := Accumulate(cfg, counts, rows);
    if requests == 0 {
      return ZERO;
    }
    var margin, marginPct := price - cost, 0.0;
    if price > 0.0 {
      marginPct := margin / price;
    }
    r := Result(requests, cost, cost / requests as real, price, price / requests as real, margin, marginPct);
  }

  lemma RowCostIs(ms: Models, counts: Counts, row: Row, effective: real)
    requires effective == if row.model in ms && ms[row.model].infra > 0.0 && Count(counts, row.model) > 0
                          then row.spend + ms[row.model].infra / Count(counts, row.model) as real * row.requests as real
                          else row.spend
    ensures effective == RowCost(ms, counts, row)
  {
    var n := row.requests as real;
    assert 0.0 * n == 0.0;
  }

  // ---- What one row costs -----------------------------------------------------------------------------

  // `i` is the last entry of the name.
  ghost predicate LastNamed(models: seq<ModelConfig>, name: string, i: nat) {
    i < |models| && models[i].name == name && forall j | i < j < |models| :: models[j].name != name
  }

  /** A name is configured exactly when some entry has it. */
  lemma {:induction false} ByNameHas(models: seq<ModelConfig>, name: string)
    ensures name in ByName(models) <==> exists i :: 0 <= i < |models| && models[i].name == name
  {
    if models != [] {
      var n := |models| - 1;
      ByNameHas(models[..n], name);
      assert forall i | 0 <= i < n :: models[..n][i] == models[i];
    }
  }

  /** The config of a name is its last entry. */
  lemma {:induction false} ByNameLast(models: seq<ModelConfig>, name: string, i: nat)
    requires LastNamed(models, name, i)
    ensures name in ByName(models) && ByName(models)[name] == models[i]
    decreases |models|
  {
    var n := |models| - 1;
    if i < n {
      assert models[n].name != name && LastNamed(models[..n], name, i);
      ByNameLast(models[..n], name, i);
    }
  }

  // A model with a monthly infrastructure cost that the tenant used.
  predicate SharesInfra(ms: Models, counts: Counts, model: string) {
    model in ms && ms[model].infra > 0.0 && model in counts && counts[model] > 0
  }

  /** A row costs its spend and, for a used model with infrastructure cost, that cost times its share of the tenant's
      requests; it is priced at its cost plus the model's markup in percent. */
  lemma RowExactly(ms: Models, counts: Counts, row: Row)
    ensures var infra := RowCost(ms, counts, row) - row.spend;
            if SharesInfra(ms, counts, row.model)
            then infra * counts[row.model] as real == ms[row.model].infra * row.requests as real
            else infra == 0.0
    ensures RowPrice(ms, counts, row) * 100.0 ==
            RowCost(ms, counts, row) * (100.0 + if row.model in ms then ms[row.model].markup else 0.0)
  {
    RowPriceIs(RowCost(ms, counts, row), Markup(ms, row.model));
    var n := row.requests as real;
    if SharesInfra(ms, counts, row.model) {
      ShareOf(ms[row.model].infra, counts[row.model] as real, n);
    } else {
      assert 0.0 * n == 0.0;
    }
  }

  /** A breakdown of one row with requests has that row's requests, cost and price. */
  lemma SingleRow(ms: Models, counts: Counts, row: Row)
    requires row.requests != 0
    ensures var r := Monetize(ms, counts, [row]);
            && r.totalRequests == row.requests
            && r.cost == RowCost(ms, counts, row) && r.price == RowPrice(ms, counts, row)
    ensures TotalSpend([row]) == row.spend && RequestsOf([row], row.model) == row.requests
  {
    hide RowCost, RowPrice;
    var none: seq<Row> := [];
    assert [row][..0] == none;
    assert TotalRequests([row]) == TotalRequests(none) + row.requests;
    assert TotalCost(ms, counts, [row]) == TotalCost(ms, counts, none) + RowCost(ms, counts, row);
    assert TotalPrice(ms, counts, [row]) == TotalPrice(ms, counts, none) + RowPrice(ms, counts, row);
    assert TotalSpend([row]) == TotalSpend(none) + row.spend;
    assert RequestsOf([row], row.model) == RequestsOf(none, row.model) + row.requests;
  }

  lemma RowPriceIs(cost: real, markup: real)
    ensures cost * (1.0 + markup / 100.0) * 100.0 == cost * (100.0 + markup)
  {
    var u := markup / 100.0;
    assert u * 100.0 == markup;
    assert cost * (1.0 + u) * 100.0 == cost * (100.0 + u * 100.0);
  }

  lemma ShareOf(infra: real, count: real, n: real)
    requires count > 0.0
    ensures infra / count * n * count == infra * n
  {
    var r := infra / count;
    assert r * count == infra;
    assert r * n * count == (r * count) * n;
  }

  /** With one markup for all the models in it, a breakdown is priced at its cost plus that markup. */
  lemma {:induction false} UniformMarkup(ms: Models, counts: Counts, rows: seq<Row>, markup: real)
    requires forall i | 0 <= i < |rows| ::
               markup == if rows[i].model in ms then ms[rows[i].model].markup else 0.0
    ensures TotalPrice(ms, counts, rows) * 100.0 == TotalCost(ms, counts, rows) * (100.0 + markup)
  {
    hide RowCost, RowPrice;
    if rows != [] {
      var n := |rows| - 1;
      UniformMarkup(ms, counts, rows[..n], markup);
      RowExactly(ms, counts, rows[n]);
      var p, q, c, d := TotalPrice(ms, counts, rows[..n]), RowPrice(ms, counts, rows[n]),
                        TotalCost(ms, counts, rows[..n]), RowCost(ms, counts, rows[n]);
      hide TotalPrice, TotalCost;
      SumOfProducts(p, q, c, d, 100.0 + markup);
    }
  }

  lemma SumOfProducts(p: real, q: real, c: real, d: real, k: real)
    requires p * 100.0 == c * k && q * 100.0 == d * k
    ensures (p + q) * 100.0 == (c + d) * k
  {
  }

  // ---- Conservation ---------------------------------------------------------------------------------

  function RequestsOf(rows: seq<Row>, model: string): int {
    if rows == [] then 0
    else
      var init, last := rows[..|rows| - 1], rows[|rows| - 1];
      RequestsOf(init, model) + if last.model == model then last.requests else 0
  }

  // Infrastructure cost that the rows carry for one model.
  function ModelShare(ms: Models, counts: Counts, rows: seq<Row>, model: string): real {
    Rate(ms, counts, model) * RequestsOf(rows, model) as real
  }

  // Allocated cost, model by model.
  function Allocated(ms: Models, counts: Counts, rows: seq<Row>, names: seq<string>): real {
    if names == [] then 0.0
    else Allocated(ms, counts, rows, names[1..]) + ModelShare(ms, counts, rows, names[0])
  }

  ghost predicate Distinct(names: seq<string>) {
    forall i, j | 0 <= i < j < |names| :: names[i] != names[j]
  }

  lemma {:induction false} AllocatedSnoc(ms: Models, counts: Counts, rows: seq<Row>, row: Row, names: seq<string>)
    requires Distinct(names)
    ensures Allocated(ms, counts, rows + [row], names) ==
            Allocated(ms, counts, rows, names) +
            if row.model in names then RowInfra(ms, counts, row) else 0.0
    decreases |names|
  {
    hide ModelShare, RowInfra;
    if names != [] {
      var m, tail := names[0], names[1..];
      AllocatedSnoc(ms, counts, rows, row, tail);
      ShareSnoc(ms, counts, rows, row, m);
      assert names == [m] + tail;
      assert m !in tail;
    }
  }

  lemma ShareSnoc(ms: Models, counts: Counts, rows: seq<Row>, row: Row, model: string)
    ensures ModelShare(ms, counts, rows + [row], model) ==
            ModelShare(ms, counts, rows, model) + if row.model == model then RowInfra(ms, counts, row) else 0.0
  {
    hide Rate;
    assert (rows + [row])[..|rows|] == rows;
    Distribute(Rate(ms, counts, model), RequestsOf(rows, model), row.requests);
  }

  lemma Distribute(k: real, a: int, b: int)
    ensures k * (a + b) as real == k * a as real + k * b as real
  {
    assert (a + b) as real == a as real + b as real;
  }

  lemma {:induction false} CostByModel(ms: Models, counts: Counts, rows: seq<Row>, names: seq<string>)
    requires Distinct(names) && forall i | 0 <= i < |rows| :: rows[i].model in names
    ensures TotalCost(ms, counts, rows) == TotalSpend(rows) + Allocated(ms, counts, rows, names)
  {
    hide RowInfra;
    if rows == [] {
      AllocatedEmpty(ms, counts, names);
    } else {
      hide Allocated;
      var init, last := rows[..|rows| - 1], rows[|rows| - 1];
      CostByModel(ms, counts, init, names);
      AllocatedSnoc(ms, counts, init, last, names);
      assert rows == init + [last];
    }
  }

  lemma {:induction false} AllocatedEmpty(ms: Models, counts: Counts, names: seq<string>)
    ensures Allocated(ms, counts, [], names) == 0.0
  {
    if names != [] {
      AllocatedEmpty(ms, counts, names[1..]);
      var k := Rate(ms, counts, names[0]);
      assert k * 0.0 == 0.0;
    }
  }

  // The monthly infrastructure cost of a model the tenant used.
  function InfraOf(ms: Models, counts: Counts, model: string): real {
    if model in ms && ms[model].infra > 0.0 && Count(counts, model) > 0 then ms[model].infra else 0.0
  }

  function TotalInfra(ms: Models, counts: Counts, names: seq<string>): real {
    if names == [] then 0.0 else TotalInfra(ms, counts, names[1..]) + InfraOf(ms, counts, names[0])
  }

  lemma {:induction false} AllocatedIsInfra(ms: Models, counts: Counts, rows: seq<Row>, names: seq<string>)
    requires forall i | 0 <= i < |names| :: RequestsOf(rows, names[i]) == Count(counts, names[i])
    ensures Allocated(ms, counts, rows, names) == TotalInfra(ms, counts, names)
  {
    if names != [] {
      AllocatedIsInfra(ms, counts, rows, names[1..]);
      var m := names[0];
      if InfraOf(ms, counts, m) > 0.0 {
        var c := Count(counts, m) as real;
        assert ms[m].infra / c * c == ms[m].infra;
      } else {
        var c := Count(counts, m) as real;
        assert 0.0 * c == 0.0;
      }
    }
  }

  function Flatten(ids: seq<seq<Row>>): seq<Row> {
    if ids == [] then [] else Flatten(ids[..|ids| - 1]) + ids[|ids| - 1]
  }

  // What the identities are charged together, and the cost of identities without a single request, which the
  // computation reports as zero.
  function SumCharged(ms: Models, counts: Counts, ids: seq<seq<Row>>): real {
    if ids == [] then 0.0
    else SumCharged(ms, counts, ids[..|ids| - 1]) + Monetize(ms, counts, ids[|ids| - 1]).cost
  }

  function SumDropped(ms: Models, counts: Counts, ids: seq<seq<Row>>): real {
    if ids == [] then 0.0
    else
      var id := ids[|ids| - 1];
      SumDropped(ms, counts, ids[..|ids| - 1]) + if TotalRequests(id) == 0 then TotalCost(ms, counts, id) else 0.0
  }

  lemma {:induction false} TotalsAppend(ms: Models, counts: Counts, a: seq<Row>, b: seq<Row>)
    ensures TotalRequests(a + b) == TotalRequests(a) + TotalRequests(b)
    ensures TotalCost(ms, counts, a + b) == TotalCost(ms, counts, a) + TotalCost(ms, counts, b)
    ensures TotalPrice(ms, counts, a + b) == TotalPrice(ms, counts, a) + TotalPrice(ms, counts, b)
    decreases |b|
  {
    hide RowCost, RowPrice;
    if b == [] {
      assert a + b == a;
    } else {
      TotalsAppend(ms, counts, a, b[..|b| - 1]);
      assert (a + b)[..|a + b| - 1] == a + b[..|b| - 1];
    }
  }

  lemma {:induction false} ChargedIsTotal(ms: Models, counts: Counts, ids: seq<seq<Row>>)
    ensures SumCharged(ms, counts, ids) + SumDropped(ms, counts, ids) == TotalCost(ms, counts, Flatten(ids))
  {
    hide RowCost, RowPrice;
    if ids != [] {
      var init, last := ids[..|ids| - 1], ids[|ids| - 1];
      ChargedIsTotal(ms, counts, init);
      TotalsAppend(ms, counts, Flatten(init), last);
    }
  }

  /** When the identities' request counts add up to the tenant's, the charged costs together with what is dropped
      for request-less identities are exactly the spend plus the monthly infrastructure cost of each used model. */
  lemma {:induction false} Conservation(ms: Models, counts: Counts, ids: seq<seq<Row>>, names: seq<string>)
    requires Distinct(names) && forall i | 0 <= i < |Flatten(ids)| :: Flatten(ids)[i].model in names
    requires forall i | 0 <= i < |names| :: RequestsOf(Flatten(ids), names[i]) == Count(counts, names[i])
    ensures SumCharged(ms, counts, ids) + SumDropped(ms, counts, ids) ==
            TotalSpend(Flatten(ids)) + TotalInfra(ms, counts, names)
  {
    ChargedIsTotal(ms, counts, ids);
    CostByModel(ms, counts, Flatten(ids), names);
    AllocatedIsInfra(ms, counts, Flatten(ids), names);
  }

  /** Nothing is dropped when every identity has a request. */
  lemma {:induction false} NothingDropped(ms: Models, counts: Counts, ids: seq<seq<Row>>)
    requires forall i | 0 <= i < |ids| :: TotalRequests(ids[i]) != 0
    ensures SumDropped(ms, counts, ids) == 0.0
  {
    if ids != [] {
      NothingDropped(ms, counts, ids[..|ids| - 1]);
    }
  }

  // ---- When conservation holds without the dropped part --------------------------------------------

  ghost predicate CountedRows(rows: seq<Row>) {
    forall i | 0 <= i < |rows| :: rows[i].spend >= 0.0 && rows[i].requests >= 0
  }

  // An identity whose spend is reported as zero because it has no request.
  predicate LosesSpend(id: seq<Row>) {
    TotalRequests(id) == 0 && TotalSpend(id) != 0.0
  }

  lemma RowInfraSign(ms: Models, counts: Counts, row: Row)
    requires row.requests >= 0
    ensures RowInfra(ms, counts, row) >= 0.0 && (row.requests == 0 ==> RowInfra(ms, counts, row) == 0.0)
  {
    var rate, n := Rate(ms, counts, row.model), row.requests as real;
    assert rate >= 0.0 && n >= 0.0;
    ProductSign(rate, n);
  }

  lemma ProductSign(x: real, y: real)
    requires x >= 0.0 && y >= 0.0
    ensures x * y >= 0.0 && (y == 0.0 ==> x * y == 0.0)
  {
  }

  // Without a single request an identity costs what it spent.
  lemma {:induction false} CostOfRequestless(ms: Models, counts: Counts, rows: seq<Row>)
    requires CountedRows(rows)
    ensures TotalRequests(rows) >= 0 && TotalSpend(rows) >= 0.0
    ensures TotalRequests(rows) == 0 ==> TotalCost(ms, counts, rows) == TotalSpend(rows)
  {
    hide RowInfra;
    if rows != [] {
      CostOfRequestless(ms, counts, rows[..|rows| - 1]);
      RowInfraSign(ms, counts, rows[|rows| - 1]);
    }
  }

  lemma {:induction false} DroppedExactly(ms: Models, counts: Counts, ids: seq<seq<Row>>)
    requires forall i | 0 <= i < |ids| :: CountedRows(ids[i])
    ensures SumDropped(ms, counts, ids) >= 0.0
    ensures SumDropped(ms, counts, ids) == 0.0 <==> forall i | 0 <= i < |ids| :: !LosesSpend(ids[i])
  {
    if ids != [] {
      var n := |ids| - 1;
      DroppedExactly(ms, counts, ids[..n]);
      CostOfRequestless(ms, counts, ids[n]);
      assert forall i | 0 <= i < n :: ids[..n][i] == ids[i];
    }
  }

  /** With non-negative spend and requests, what the identities are charged is exactly the spend plus the monthly
      infrastructure cost of each used model if and only if no identity has spend without a request. */
  lemma {:induction false} ConservationExactly(ms: Models, counts: Counts, ids: seq<seq<Row>>, names: seq<string>)
    requires Distinct(names) && forall i | 0 <= i < |Flatten(ids)| :: Flatten(ids)[i].model in names
    requires forall i | 0 <= i < |names| :: RequestsOf(Flatten(ids), names[i]) == Count(counts, names[i])
    requires forall i | 0 <= i < |ids| :: CountedRows(ids[i])
    ensures SumCharged(ms, counts, ids) == TotalSpend(Flatten(ids)) + TotalInfra(ms, counts, names) <==>
            forall i | 0 <= i < |ids| :: !LosesSpend(ids[i])
  {
    hide SumCharged, SumDropped, TotalSpend, TotalInfra;
    Conservation(ms, counts, ids, names);
    DroppedExactly(ms, counts, ids);
  }

  /** One identity with spend and no request, for which the charges fall short. */
  lemma SpendWithoutRequest(ms: Models)
    ensures var ids := [[Row("gpt", 0, 1.0)]];
            SumCharged(ms, map[], ids) != TotalSpend(Flatten(ids)) + TotalInfra(ms, map[], ["gpt"])
  {
    var id := [Row("gpt", 0, 1.0)];
    var ids := [id];
    assert id[..0] == [] && ids[..0] == [];
    assert Flatten(ids) == [] + id == id;
    assert RequestsOf(id, "gpt") == 0 && TotalRequests(id) == 0 && TotalSpend(id) == 1.0;
    assert LosesSpend(ids[0]);
    ConservationExactly(ms, map[], ids, ["gpt"]);
  }

  /** Totals add up over concatenated breakdowns that each have requests. */
  lemma Additive(ms: Models, counts: Counts, a: seq<Row>, b: seq<Row>)
    requires TotalRequests(a) > 0 && TotalRequests(b) > 0
    ensures var (x, y, z) := (Monetize(ms, counts, a), Monetize(ms, counts, b), Monetize(ms, counts, a + b));
            && z.totalRequests == x.totalRequests + y.totalRequests && z.cost == x.cost + y.cost
            && z.price == x.price + y.price && z.margin == x.margin + y.margin
  {
    hide RowCost, RowPrice;
    TotalsAppend(ms, counts, a, b);
  }

  /** The derived figures belong to the totals they are named after. */
  lemma FiguresAgree(ms: Models, counts: Counts, rows: seq<Row>)
    ensures var r := Monetize(ms, counts, rows);
            && r.avgCost * r.totalRequests as real == r.cost && r.avgPrice * r.totalRequests as real == r.price
            && r.margin == r.price - r.cost && (r.price > 0.0 ==> r.marginPct * r.price == r.margin)
            && r.totalRequests == TotalRequests(rows)
            && (TotalRequests(rows) != 0 ==>
                  r.cost == TotalCost(ms, counts, rows) && r.price == TotalPrice(ms, counts, rows))
            && (TotalRequests(rows) == 0 ==> r == ZERO)
  {
    hide TotalCost, TotalPrice;
    var r := Monetize(ms, counts, rows);
    if r.totalRequests != 0 {
      Undivide(r.cost, r.totalRequests as real);
      Undivide(r.price, r.totalRequests as real);
      if r.price > 0.0 {
        Undivide(r.margin, r.price);
      }
    }
  }

  lemma Undivide(a: real, b: real)
    requires b != 0.0
    ensures a / b * b == a
  {
  }

  // ---- Margin -----------------------------------------------------------------------------------------

  ghost predicate NonNegative(ms: Models, rows: seq<Row>) {
    && (forall m | m in ms :: ms[m].markup >= 0.0)
    && (forall i | 0 <= i < |rows| :: rows[i].spend >= 0.0 && rows[i].requests >= 0)
  }

  lemma RowMargin(ms: Models, counts: Counts, row: Row)
    requires (forall m | m in ms :: ms[m].markup >= 0.0) && row.spend >= 0.0 && row.requests >= 0
    ensures var c, p := RowCost(ms, counts, row), RowPrice(ms, counts, row);
            c >= 0.0 && p >= c && (c == 0.0 ==> p == 0.0)
  {
    var rate, n := Rate(ms, counts, row.model), row.requests as real;
    assert rate >= 0.0;
    assert rate * n >= 0.0;
    var c, k := RowCost(ms, counts, row), Markup(ms, row.model) / 100.0;
    assert k >= 0.0;
    Marked(c, k);
  }

  lemma Marked(c: real, k: real)
    requires c >= 0.0 && k >= 0.0
    ensures c * (1.0 + k) >= c && (c == 0.0 ==> c * (1.0 + k) == 0.0)
  {
    assert c * (1.0 + k) == c + c * k;
    assert c * k >= 0.0;
    if c == 0.0 {
      calc { c * k; 0.0 * k; 0.0; }
    }
  }

  lemma {:induction false} TotalMargin(ms: Models, counts: Counts, rows: seq<Row>)
    requires NonNegative(ms, rows)
    ensures var c, p := TotalCost(ms, counts, rows), TotalPrice(ms, counts, rows);
            c >= 0.0 && p >= c && (c == 0.0 ==> p == 0.0)
  {
    hide RowCost, RowPrice;
    if rows != [] {
      TotalMargin(ms, counts, rows[..|rows| - 1]);
      RowMargin(ms, counts, rows[|rows| - 1]);
    }
  }

  /** With non-negative spend, requests and markup the margin is non-negative and its share lies in [0, 1). */
  lemma MarginBounds(ms: Models, counts: Counts, rows: seq<Row>)
    requires NonNegative(ms, rows)
    ensures var r := Monetize(ms, counts, rows);
            r.margin >= 0.0 && 0.0 <= r.marginPct < 1.0
  {
    TotalMargin(ms, counts, rows);
    var c, p := TotalCost(ms, counts, rows), TotalPrice(ms, counts, rows);
    if p > 0.0 {
      Share(p - c, p);
    }
  }

  lemma Share(m: real, p: real)
    requires 0.0 <= m < p
    ensures 0.0 <= m / p < 1.0
  {
    var q := m / p;
    assert q * p == m;
  }
}
