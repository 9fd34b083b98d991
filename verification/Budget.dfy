/**
 What a run costs, what has been spent, and whether another run may start:
 src/ext/pricing.ts, src/ext/spend.ts and src/ext/budget-policy.ts.
 Amounts are US dollars; `real` stands for the source's doubles.
 */
module Budget {

  import opened Prelude

  // ── costFor ────────────────────────────────────────────────────────────────

  datatype Price = Price(inputPerMTok: real, outputPerMTok: real, cacheReadPerMTok: real, cacheWritePerMTok: real) {
    predicate Valid() {
      inputPerMTok >= 0.0 && outputPerMTok >= 0.0 && cacheReadPerMTok >= 0.0 && cacheWritePerMTok >= 0.0
    }
  }

  datatype Tokens = Tokens(input: nat, output: nat, cacheRead: nat, cacheCreation: nat)

  /** `Math.round`: halves go up. */
  function Round(x: real): int {
    (x + 0.5).Floor
  }

  function RoundCost(usd: real): real {
    Round(usd * 1000000.0) as real / 1000000.0
  }

  function ExactCost(t: Tokens, p: Price): real {
    (t.input as real / 1000000.0) * p.inputPerMTok
    + (t.output as real / 1000000.0) * p.outputPerMTok
    + (t.cacheRead as real / 1000000.0) * p.cacheReadPerMTok
    + (t.cacheCreation as real / 1000000.0) * p.cacheWritePerMTok
  }

  datatype Cost = Cost(usd: real, priced: bool)

  function CostFor(t: Tokens, price: Option<Price>): Cost {
    match price
    case None => Cost(0.0, false)
    case Some(p) => Cost(RoundCost(ExactCost(t, p)), true)
  }

  /** A whole number of micro-dollars. */
  predicate IsMicro(usd: real) {
    (usd * 1000000.0).Floor as real == usd * 1000000.0
  }

  lemma FloorBelow(x: real)
    ensures x.Floor as real <= x < x.Floor as real + 1.0
  {
  }

  lemma FloorIs(x: real, n: int)
    requires n as real <= x < n as real + 1.0
    ensures x.Floor == n
  {
    FloorBelow(x);
    assert x.Floor as real < n as real + 1.0;
  }

  lemma RoundIsClosest(x: real)
    ensures -0.5 < Round(x) as real - x <= 0.5
  {
    FloorBelow(x + 0.5);
  }

  lemma RoundOfWhole(x: real, n: int)
    requires x == n as real
    ensures Round(x) == n
  {
    FloorIs(x + 0.5, n);
  }

  lemma MicrosOf(n: int)
    ensures (n as real / 1000000.0) * 1000000.0 == n as real
    ensures IsMicro(n as real / 1000000.0)
  {
    assert (n as real).Floor == n;
  }

  lemma RoundCostIsClosestMicro(usd: real)
    ensures IsMicro(RoundCost(usd))
    ensures -0.5 / 1000000.0 < RoundCost(usd) - usd <= 0.5 / 1000000.0
    ensures IsMicro(usd) ==> RoundCost(usd) == usd
  {
    RoundIsClosest(usd * 1000000.0);
    if IsMicro(usd) {
      RoundOfWhole(usd * 1000000.0, (usd * 1000000.0).Floor);
    }
    MicrosOf(Round(usd * 1000000.0));
  }

  lemma ProductNotNegative(a: real, b: real)
    requires a >= 0.0 && b >= 0.0
    ensures a * b >= 0.0
  {
  }

  /**
   What a priced run records: whole micro-dollars, never negative, within half of one
   of the exact cost. A run without a price records nothing spent, and says so.
   */
  lemma CostIsNearExact(t: Tokens, p: Price)
    requires p.Valid()
    ensures var c := CostFor(t, Some(p));
      c.priced && IsMicro(c.usd) && c.usd >= 0.0
      && -0.5 / 1000000.0 <= c.usd - ExactCost(t, p) <= 0.5 / 1000000.0
    ensures !CostFor(t, None).priced && CostFor(t, None).usd == 0.0
  {
    ProductNotNegative(t.input as real / 1000000.0, p.inputPerMTok);
    ProductNotNegative(t.output as real / 1000000.0, p.outputPerMTok);
    ProductNotNegative(t.cacheRead as real / 1000000.0, p.cacheReadPerMTok);
    ProductNotNegative(t.cacheCreation as real / 1000000.0, p.cacheWritePerMTok);
    RoundCostIsClosestMicro(ExactCost(t, p));
  }

  /** A million tokens of one kind cost that kind's own rate, and tokens' costs add up. */
  lemma CostIsByKind(t: Tokens, u: Tokens, p: Price)
    ensures ExactCost(Tokens(1000000, 0, 0, 0), p) == p.inputPerMTok
    ensures ExactCost(Tokens(0, 1000000, 0, 0), p) == p.outputPerMTok
    ensures ExactCost(Tokens(0, 0, 1000000, 0), p) == p.cacheReadPerMTok
    ensures ExactCost(Tokens(0, 0, 0, 1000000), p) == p.cacheWritePerMTok
    ensures ExactCost(Tokens(t.input + u.input, t.output + u.output, t.cacheRead + u.cacheRead,
                             t.cacheCreation + u.cacheCreation), p)
         == ExactCost(t, p) + ExactCost(u, p)
  {
    AmountsAddUp(t.input, u.input, p.inputPerMTok);
    AmountsAddUp(t.output, u.output, p.outputPerMTok);
    AmountsAddUp(t.cacheRead, u.cacheRead, p.cacheReadPerMTok);
    AmountsAddUp(t.cacheCreation, u.cacheCreation, p.cacheWritePerMTok);
  }

  lemma AmountsAddUp(n: nat, m: nat, rate: real)
    ensures ((n + m) as real / 1000000.0) * rate == (n as real / 1000000.0) * rate + (m as real / 1000000.0) * rate
  {
    assert (n + m) as real / 1000000.0 == n as real / 1000000.0 + m as real / 1000000.0;
  }

  // ── computeSpend ───────────────────────────────────────────────────────────

  datatype Entry = Entry(bead: string, costUsd: real, priced: bool)

  datatype Spend = Spend(beadUsd: real, kshetraUsd: real, beadUnpricedRuns: nat, kshetraUnpricedRuns: nat)

  function Total(entries: seq<Entry>): real {
    if entries == [] then 0.0 else Total(entries[..|entries| - 1]) + entries[|entries| - 1].costUsd
  }

  function Unpriced(entries: seq<Entry>): nat {
    if entries == [] then 0
    else Unpriced(entries[..|entries| - 1]) + if entries[|entries| - 1].priced then 0 else 1
  }

  /** The entries of one bead, in order. */
  function Of(entries: seq<Entry>, bead: string): seq<Entry> {
    if entries == [] then []
    else
      var e := entries[|entries| - 1];
      Of(entries[..|entries| - 1], bead) + if e.bead == bead then [e] else []
  }

  /** What `computeSpend` makes of the entries. */
  function ReadSpend(entries: seq<Entry>, bead: string): Spend {
    Spend(RoundCost(Total(Of(entries, bead))), RoundCost(Total(entries)), Unpriced(Of(entries, bead)), Unpriced(entries))
  }

  method ComputeSpend(entries: seq<Entry>, bead: string) returns (r: Spend)
    ensures r.beadUsd == RoundCost(Total(Of(entries, bead)))
    ensures r.kshetraUsd == RoundCost(Total(entries))
    ensures r.beadUnpricedRuns == Unpriced(Of(entries, bead))
    ensures r.kshetraUnpricedRuns == Unpriced(entries)
    ensures r == ReadSpend(entries, bead)
  {
    var beadUsd, kshetraUsd := 0.0, 0.0;
    var beadUnpriced, kshetraUnpriced := 0, 0;
    for i := 0 to |entries|
      invariant beadUsd == Total(Of(entries[..i], bead)) && kshetraUsd == Total(entries[..i])
      invariant beadUnpriced == Unpriced(Of(entries[..i], bead)) && kshetraUnpriced == Unpriced(entries[..i])
    {
      var e := entries[i];
      SpendOneMore(entries, i, bead);
      kshetraUsd := kshetraUsd + e.costUsd;
      if !e.priced {
        kshetraUnpriced := kshetraUnpriced + 1;
      }
      if e.bead == bead {
        beadUsd := beadUsd + e.costUsd;
        if !e.priced {
          beadUnpriced := beadUnpriced + 1;
        }
      }
    }
    assert entries[..|entries|] == entries;
    r := Spend(RoundCost(beadUsd), RoundCost(kshetraUsd), beadUnpriced, kshetraUnpriced);
  }

  /** How many of the entries carry no price. */
  lemma {:induction false} UnpricedCounts(entries: seq<Entry>)
    ensures Unpriced(entries) == |set i | 0 <= i < |entries| && !entries[i].priced|
  {
    if entries != [] {
      var n := |entries| - 1;
      UnpricedCounts(entries[..n]);
      var before := set i | 0 <= i < n && !entries[..n][i].priced;
      var all := set i | 0 <= i < |entries| && !entries[i].priced;
      assert all == if entries[n].priced then before else before + {n};
    }
  }

  lemma OneMore(entries: seq<Entry>, e: Entry)
    ensures Total(entries + [e]) == Total(entries) + e.costUsd
    ensures Unpriced(entries + [e]) == Unpriced(entries) + if e.priced then 0 else 1
  {
    assert (entries + [e])[..|entries|] == entries;
  }

  lemma OfOneMore(entries: seq<Entry>, e: Entry, bead: string)
    ensures Of(entries + [e], bead) == Of(entries, bead) + if e.bead == bead then [e] else []
  {
    assert (entries + [e])[..|entries|] == entries;
  }

  lemma SpendOneMore(entries: seq<Entry>, i: nat, bead: string)
    requires i < |entries|
    ensures var now, next, e := entries[..i], entries[..i + 1], entries[i];
      && Total(next) == Total(now) + e.costUsd
      && Unpriced(next) == Unpriced(now) + (if e.priced then 0 else 1)
      && Total(Of(next, bead)) == Total(Of(now, bead)) + (if e.bead == bead then e.costUsd else 0.0)
      && Unpriced(Of(next, bead)) == Unpriced(Of(now, bead)) + (if e.bead == bead && !e.priced then 1 else 0)
  {
    hide Of, Total, Unpriced;
    assert entries[..i + 1] == entries[..i] + [entries[i]];
    OneMore(entries[..i], entries[i]);
    OfOneMore(entries[..i], entries[i], bead);
    OneMore(Of(entries[..i], bead), entries[i]);
    assert Of(entries[..i], bead) + [] == Of(entries[..i], bead);
  }

  // ── conservation ───────────────────────────────────────────────────────────

  predicate AllMicro(entries: seq<Entry>) {
    forall i :: 0 <= i < |entries| ==> IsMicro(entries[i].costUsd)
  }

  lemma WholeSum(a: real, b: real)
    requires a.Floor as real == a && b.Floor as real == b
    ensures (a + b).Floor as real == a + b
  {
    assert a + b == (a.Floor + b.Floor) as real;
  }

  lemma {:induction false} TotalIsMicro(entries: seq<Entry>)
    requires AllMicro(entries)
    ensures IsMicro(Total(entries))
  {
    if entries != [] {
      TotalIsMicro(entries[..|entries| - 1]);
      var a, b := Total(entries[..|entries| - 1]), entries[|entries| - 1].costUsd;
      WholeSum(a * 1000000.0, b * 1000000.0);
      assert (a + b) * 1000000.0 == a * 1000000.0 + b * 1000000.0;
    }
  }

  lemma {:induction false} OfIsMicro(entries: seq<Entry>, bead: string)
    requires AllMicro(entries)
    ensures AllMicro(Of(entries, bead))
  {
    if entries != [] {
      OfIsMicro(entries[..|entries| - 1], bead);
    }
  }

  /** Entries that `costFor` priced add up without any rounding. */
  lemma MicroSpendIsExact(entries: seq<Entry>, bead: string)
    requires AllMicro(entries)
    ensures RoundCost(Total(entries)) == Total(entries)
    ensures RoundCost(Total(Of(entries, bead))) == Total(Of(entries, bead))
  {
    OfIsMicro(entries, bead);
    TotalIsMicro(entries);
    TotalIsMicro(Of(entries, bead));
    RoundCostIsClosestMicro(Total(entries));
    RoundCostIsClosestMicro(Total(Of(entries, bead)));
  }

  /** The spend that `computeSpend` reports for each of `beads`, added up. */
  function SpendOfBeads(entries: seq<Entry>, beads: seq<string>): real {
    if beads == [] then 0.0
    else SpendOfBeads(entries, beads[..|beads| - 1]) + RoundCost(Total(Of(entries, beads[|beads| - 1])))
  }

  function TotalOfBeads(entries: seq<Entry>, beads: seq<string>): real {
    if beads == [] then 0.0
    else TotalOfBeads(entries, beads[..|beads| - 1]) + Total(Of(entries, beads[|beads| - 1]))
  }

  lemma {:induction false} SpendOfBeadsIsTotal(entries: seq<Entry>, beads: seq<string>)
    requires AllMicro(entries)
    ensures SpendOfBeads(entries, beads) == TotalOfBeads(entries, beads)
  {
    if beads != [] {
      SpendOfBeadsIsTotal(entries, beads[..|beads| - 1]);
      MicroSpendIsExact(entries, beads[|beads| - 1]);
    }
  }

  predicate Distinct(beads: seq<string>) {
    forall i, j :: 0 <= i < j < |beads| ==> beads[i] != beads[j]
  }

  /** One entry more counts once among distinct beads. */
  lemma {:induction false} BeadsOneMore(entries: seq<Entry>, e: Entry, beads: seq<string>)
    requires Distinct(beads)
    ensures TotalOfBeads(entries + [e], beads)
         == TotalOfBeads(entries, beads) + if e.bead in beads then e.costUsd else 0.0
  {
    if beads != [] {
      var rest, b := beads[..|beads| - 1], beads[|beads| - 1];
      assert beads == rest + [b];
      assert b !in rest by {
        assert forall i :: 0 <= i < |rest| ==> rest[i] == beads[i];
      }
      BeadsOneMore(entries, e, rest);
      OfOneMore(entries, e, b);
      OneMore(Of(entries, b), e);
      assert Of(entries, b) + [] == Of(entries, b);
      assert e.bead in beads <==> e.bead in rest || e.bead == b;
    }
  }

  lemma {:induction false} TotalOfAllBeads(entries: seq<Entry>, beads: seq<string>)
    requires Distinct(beads) && forall i :: 0 <= i < |entries| ==> entries[i].bead in beads
    ensures TotalOfBeads(entries, beads) == Total(entries)
  {
    if entries == [] {
      NothingSpent(beads);
    } else {
      var rest, e := entries[..|entries| - 1], entries[|entries| - 1];
      TotalOfAllBeads(rest, beads);
      BeadsOneMore(rest, e, beads);
      OneMore(rest, e);
      assert rest + [e] == entries;
    }
  }

  lemma {:induction false} NothingSpent(beads: seq<string>)
    ensures TotalOfBeads([], beads) == 0.0
  {
    if beads != [] {
      NothingSpent(beads[..|beads| - 1]);
    }
  }

  /** The beads' reported spends add up to the Kshetra's, to the micro-dollar. */
  lemma BeadSpendsAddUp(entries: seq<Entry>, beads: seq<string>)
    requires AllMicro(entries)
    requires Distinct(beads) && forall i :: 0 <= i < |entries| ==> entries[i].bead in beads
    ensures SpendOfBeads(entries, beads) == RoundCost(Total(entries))
  {
    SpendOfBeadsIsTotal(entries, beads);
    TotalOfAllBeads(entries, beads);
    MicroSpendIsExact(entries, "");
  }

  // ── distance from the exact cost ───────────────────────────────────────────

  datatype Metered = Metered(bead: string, tokens: Tokens, price: Price)

  function Recorded(runs: seq<Metered>): (entries: seq<Entry>)
    ensures |entries| == |runs|
  {
    if runs == [] then []
    else
      var m := runs[|runs| - 1];
      var c := CostFor(m.tokens, Some(m.price));
      Recorded(runs[..|runs| - 1]) + [Entry(m.bead, c.usd, c.priced)]
  }

  function ExactTotal(runs: seq<Metered>): real {
    if runs == [] then 0.0
    else ExactTotal(runs[..|runs| - 1]) + ExactCost(runs[|runs| - 1].tokens, runs[|runs| - 1].price)
  }

  lemma {:induction false} RecordedDrift(runs: seq<Metered>)
    requires forall i :: 0 <= i < |runs| ==> runs[i].price.Valid()
    ensures AllMicro(Recorded(runs))
    ensures -(|runs| as real) * 0.5 / 1000000.0 <= Total(Recorded(runs)) - ExactTotal(runs) <= (|runs| as real) * 0.5 / 1000000.0
  {
    if runs != [] {
      var rest, m := runs[..|runs| - 1], runs[|runs| - 1];
      RecordedDrift(rest);
      CostIsNearExact(m.tokens, m.price);
      var e := Recorded(runs)[|runs| - 1];
      assert Recorded(runs) == Recorded(rest) + [e];
      OneMore(Recorded(rest), e);
    }
  }

  /** After `n` priced runs the reported spend is within `n` half micro-dollars of what the tokens cost. */
  lemma SpendIsNearExact(runs: seq<Metered>)
    requires forall i :: 0 <= i < |runs| ==> runs[i].price.Valid()
    ensures var spent := RoundCost(Total(Recorded(runs)));
      -(|runs| as real) * 0.5 / 1000000.0 <= spent - ExactTotal(runs) <= (|runs| as real) * 0.5 / 1000000.0
  {
    RecordedDrift(runs);
    MicroSpendIsExact(Recorded(runs), "");
  }
}
