/** The post-run aggregation of the two experiment reports: per-node totals and jitter of the wired
    test, per-class and per-sender totals and Jain's fairness index of the wireless test. */
module FlowMetrics {
  import opened Common
  import opened Statistics

  const UPDATE_PORT: nat := 9000
  const INTERACTIVE_PORT: nat := 9001
  const SPIKE_PORT: nat := 9002

  // ---------------------------------------------------------------------------
  // Wired report: node aggregates and integer-rounded jitter
  // ---------------------------------------------------------------------------

  const NS_PER_MS: nat := 1_000_000

  /** What the flow monitor knows about one flow; times are whole nanoseconds. */
  datatype WiredFlow = WiredFlow(destinationPort: nat, txPkts: nat, rxPkts: nat, rxBytes: nat, jitterSumNs: nat)

  /** The per-flow jitter is cut to whole milliseconds twice: by GetMilliSeconds and by the division. */
  function JitterMs(f: WiredFlow): nat {
    if f.rxPkts > 1 then (f.jitterSumNs / NS_PER_MS) / (f.rxPkts - 1) else 0
  }

  /** std::max(0, (int)rxPkts - 1): the cast makes a uint32 of 2^31 or more negative. */
  function Weight(f: WiredFlow): nat {
    if 1 <= f.rxPkts < 0x8000_0000 then f.rxPkts - 1 else 0
  }

  /** The cast (int) of a uint32, which wraps in two's complement, and the larger of 0 and that less one. */
  lemma WeightIs(f: WiredFlow)
    requires f.rxPkts < 0x1_0000_0000
    ensures var asInt := if f.rxPkts < 0x8000_0000 then f.rxPkts as int else f.rxPkts as int - 0x1_0000_0000;
            Weight(f) >= 0 && Weight(f) as int >= asInt - 1 && (Weight(f) == 0 || Weight(f) as int == asInt - 1)
  {
  }

  datatype NodeAgg = NodeAgg(txPkts: nat, rxPkts: nat, rxBytes: nat, jitterSum: nat, jitterSamples: nat)

  function Plus(a: NodeAgg, b: NodeAgg): NodeAgg {
    NodeAgg(a.txPkts + b.txPkts, a.rxPkts + b.rxPkts, a.rxBytes + b.rxBytes,
            a.jitterSum + b.jitterSum, a.jitterSamples + b.jitterSamples)
  }

  const EMPTY := NodeAgg(0, 0, 0, 0, 0)

  function Contribution(f: WiredFlow): NodeAgg {
    NodeAgg(f.txPkts, f.rxPkts, f.rxBytes, JitterMs(f) * Weight(f), Weight(f))
  }

  /** What is aggregated: the data flows to one port, or all data flows. */
  datatype Node = N1 | N2 | N3 | Network

  predicate BelongsTo(f: WiredFlow, node: Node) {
    match node
    case N1 => f.destinationPort == UPDATE_PORT
    case N2 => f.destinationPort == INTERACTIVE_PORT
    case N3 => f.destinationPort == SPIKE_PORT
    case Network => f.destinationPort in {UPDATE_PORT, INTERACTIVE_PORT, SPIKE_PORT}
  }

  /** The total over the flows of `node`. */
  ghost function TotalTo(flows: seq<WiredFlow>, node: Node): NodeAgg {
    if flows == [] then EMPTY else
      var front, last := TotalTo(flows[..|flows| - 1], node), flows[|flows| - 1];
      if BelongsTo(last, node) then Plus(front, Contribution(last)) else front
  }

  /** The fields of an aggregate, and what a flow adds to each. */
  datatype Field = TxPkts | RxPkts | RxBytes | WeightedJitter | Samples

  ghost function FieldOf(a: NodeAgg, field: Field): nat {
    match field
    case TxPkts => a.txPkts
    case RxPkts => a.rxPkts
    case RxBytes => a.rxBytes
    case WeightedJitter => a.jitterSum
    case Samples => a.jitterSamples
  }

  ghost function Share(f: WiredFlow, field: Field): nat {
    match field
    case TxPkts => f.txPkts
    case RxPkts => f.rxPkts
    case RxBytes => f.rxBytes
    case WeightedJitter => JitterMs(f) * Weight(f)
    case Samples => Weight(f)
  }

  /** The sum of one field over the flows to some ports. */
  ghost function SumAt(flows: seq<WiredFlow>, ports: set<nat>, field: Field): nat {
    if flows == [] then 0 else
      var last := flows[|flows| - 1];
      SumAt(flows[..|flows| - 1], ports, field) + if last.destinationPort in ports then Share(last, field) else 0
  }

  ghost function PortsOf(node: Node): set<nat> {
    match node
    case N1 => {UPDATE_PORT}
    case N2 => {INTERACTIVE_PORT}
    case N3 => {SPIKE_PORT}
    case Network => {UPDATE_PORT, INTERACTIVE_PORT, SPIKE_PORT}
  }

  /** Every field of an aggregate is the sum of that field over the flows to its ports. */
  lemma {:induction false} TotalsAreSums(flows: seq<WiredFlow>, node: Node, field: Field)
    ensures FieldOf(TotalTo(flows, node), field) == SumAt(flows, PortsOf(node), field)
  {
    hide JitterMs, Weight;
    if flows != [] { TotalsAreSums(flows[..|flows| - 1], node, field); }
  }

  lemma TotalToNone(node: Node)
    ensures TotalTo([], node) == EMPTY
  {
  }

  lemma TotalToNext(flows: seq<WiredFlow>, f: WiredFlow, node: Node)
    ensures TotalTo(flows + [f], node)
         == if BelongsTo(f, node) then Plus(TotalTo(flows, node), Contribution(f)) else TotalTo(flows, node)
  {
    assert (flows + [f])[..|flows + [f]| - 1] == flows;
  }

  method AggregateNodes(allFlows: seq<WiredFlow>) returns (n1: NodeAgg, n2: NodeAgg, n3: NodeAgg, net: NodeAgg)
    ensures n1 == TotalTo(allFlows, N1)
    ensures n2 == TotalTo(allFlows, N2)
    ensures n3 == TotalTo(allFlows, N3)
    ensures net == TotalTo(allFlows, Network)
    ensures net == Plus(Plus(n1, n2), n3)
    ensures forall field :: FieldOf(n1, field) == SumAt(allFlows, {UPDATE_PORT}, field)
                            && FieldOf(n2, field) == SumAt(allFlows, {INTERACTIVE_PORT}, field)
                            && FieldOf(n3, field) == SumAt(allFlows, {SPIKE_PORT}, field)
                            && FieldOf(net, field) == SumAt(allFlows, {UPDATE_PORT, INTERACTIVE_PORT, SPIKE_PORT}, field)
  {
    hide TotalTo, Contribution, Plus, FieldOf, SumAt;
    forall field, node ensures FieldOf(TotalTo(allFlows, node), field) == SumAt(allFlows, PortsOf(node), field) {
      TotalsAreSums(allFlows, node, field);
    }
    TotalToNone(N1);
    TotalToNone(N2);
    TotalToNone(N3);
    TotalToNone(Network);
    n1, n2, n3, net := EMPTY, EMPTY, EMPTY, EMPTY;
    for i := 0 to |allFlows|
      invariant n1 == TotalTo(allFlows[..i], N1)
      invariant n2 == TotalTo(allFlows[..i], N2)
      invariant n3 == TotalTo(allFlows[..i], N3)
      invariant net == TotalTo(allFlows[..i], Network)
    {
      var rec := allFlows[i];
      assert allFlows[..i + 1] == allFlows[..i] + [rec];
      TotalToNext(allFlows[..i], rec, N1);
      TotalToNext(allFlows[..i], rec, N2);
      TotalToNext(allFlows[..i], rec, N3);
      TotalToNext(allFlows[..i], rec, Network);
      var isData := rec.destinationPort == UPDATE_PORT || rec.destinationPort == INTERACTIVE_PORT
                    || rec.destinationPort == SPIKE_PORT;
      if !isData {
        continue;
      }
      if rec.destinationPort == UPDATE_PORT {
        n1 := Plus(n1, Contribution(rec));
      } else if rec.destinationPort == INTERACTIVE_PORT {
        n2 := Plus(n2, Contribution(rec));
      } else if rec.destinationPort == SPIKE_PORT {
        n3 := Plus(n3, Contribution(rec));
      }
      net := Plus(net, Contribution(rec));
    }
    assert allFlows[..|allFlows|] == allFlows;
    NodesAddUp(allFlows);
  }

  /** The network-wide aggregate is the sum of the three node aggregates, field by field. */
  lemma {:induction false} NodesAddUp(flows: seq<WiredFlow>)
    ensures TotalTo(flows, Network)
         == Plus(Plus(TotalTo(flows, N1), TotalTo(flows, N2)), TotalTo(flows, N3))
  {
    hide TotalTo, Contribution, Plus;
    if flows == [] {
      TotalToNone(N1);
      TotalToNone(N2);
      TotalToNone(N3);
      TotalToNone(Network);
      PlusNothing(EMPTY, EMPTY);
    } else {
      var front, last := flows[..|flows| - 1], flows[|flows| - 1];
      NodesAddUp(front);
      assert flows == front + [last];
      TotalToNext(front, last, N1);
      TotalToNext(front, last, N2);
      TotalToNext(front, last, N3);
      TotalToNext(front, last, Network);
      PlusInAnyPlace(TotalTo(front, N1), TotalTo(front, N2), TotalTo(front, N3),
                     Contribution(last));
    }
  }

  lemma PlusNothing(a: NodeAgg, nothing: NodeAgg)
    requires nothing.txPkts == nothing.rxPkts == nothing.rxBytes == nothing.jitterSum == nothing.jitterSamples == 0
    ensures Plus(a, nothing) == a
  {
  }

  lemma PlusInAnyPlace(a: NodeAgg, b: NodeAgg, c: NodeAgg, x: NodeAgg)
    ensures Plus(Plus(Plus(a, b), c), x) == Plus(Plus(Plus(a, x), b), c)
    ensures Plus(Plus(Plus(a, b), c), x) == Plus(Plus(a, Plus(b, x)), c) == Plus(Plus(a, b), Plus(c, x))
  {
  }

  /** jAvg */
  function JitterAverage(a: NodeAgg): real {
    if a.jitterSamples > 0 then a.jitterSum as real / a.jitterSamples as real else 0.0
  }

  /** The jitter total of the flows that carry weight, in nanoseconds, before any rounding. */
  ghost function ExactJitterNs(flows: seq<WiredFlow>, node: Node): nat {
    if flows == [] then 0 else
      var front, last := ExactJitterNs(flows[..|flows| - 1], node), flows[|flows| - 1];
      if BelongsTo(last, node) && Weight(last) > 0 then front + last.jitterSumNs else front
  }

  /** Two integer divisions in a row lose less than one unit of the combined divisor. */
  lemma TwoDivisions(x: nat, m: nat, w: nat)
    requires m > 0 && w > 0
    ensures var q := (x / m) / w;
            && q * w * m <= x < (q * w + w) * m
            && (q * w * m == x <==> x % (m * w) == 0)
  {
    var y, r := x / m, x % m;
    var q, s := y / w, y % w;
    DivMod(x, m);
    DivMod(y, w);
    Recombine(x, m, w, q, s, r);
  }

  lemma DivMod(x: nat, d: nat)
    requires d > 0
    ensures x == d * (x / d) + x % d && 0 <= x % d < d
  {
  }

  lemma Recombine(x: nat, m: nat, w: nat, q: nat, s: nat, r: nat)
    requires s < w && r < m && x == m * (w * q + s) + r
    ensures q * w * m <= x < (q * w + w) * m
    ensures m * w > 0 && (q * w * m == x <==> x % (m * w) == 0)
  {
    Regroup(m, w, q, s);
    CombinedRest(m, w, s, r);
    RemainderUnique(x, q, m * s + r, m * w);
  }

  lemma CombinedRest(m: nat, w: nat, s: nat, r: nat)
    requires s < w && r < m
    ensures 0 <= m * s + r < m * w
  {
    ScaledNat(m, s, w - 1);
    assert m * (w - 1) == m * w - m;
  }

  lemma Regroup(m: nat, w: nat, q: nat, r: nat)
    ensures m * (w * q + r) == q * (m * w) + m * r
    ensures q * w * m == q * (m * w) && (q * w + w) * m == q * (m * w) + m * w
  {
  }

  lemma ScaledNat(m: nat, x: nat, y: nat)
    requires x <= y
    ensures m * x <= m * y
  {
  }

  /** No division of a weighted flow has a remainder. */
  ghost predicate NothingRounded(flows: seq<WiredFlow>, node: Node) {
    forall i :: 0 <= i < |flows| && BelongsTo(flows[i], node) ==> IsWhole(flows[i])
  }

  ghost predicate IsWhole(f: WiredFlow) {
    Weight(f) > 0 ==> f.jitterSumNs % (NS_PER_MS * Weight(f)) == 0
  }

  lemma {:induction false} RoundingLosses(flows: seq<WiredFlow>, node: Node)
    ensures var a, exact := TotalTo(flows, node), ExactJitterNs(flows, node);
            && a.jitterSum * NS_PER_MS <= exact
            && (a.jitterSamples == 0 ==> exact == 0)
            && (a.jitterSamples > 0 ==> exact < (a.jitterSum + a.jitterSamples) * NS_PER_MS)
            && (a.jitterSum * NS_PER_MS == exact <==> NothingRounded(flows, node))
  {
    hide Weight, JitterMs, BelongsTo, NothingRounded, Contribution, IsWhole;
    if flows == [] {
      NothingRoundedAtFirst(node);
    } else {
      var front, last := flows[..|flows| - 1], flows[|flows| - 1];
      assert flows == front + [last];
      RoundingLosses(front, node);
      NothingRoundedNext(front, last, node);
      ContributionParts(last);
    }
  }

  lemma NothingRoundedAtFirst(node: Node)
    ensures NothingRounded([], node)
  {
  }

  lemma NothingRoundedNext(flows: seq<WiredFlow>, f: WiredFlow, node: Node)
    ensures NothingRounded(flows + [f], node) <==> NothingRounded(flows, node) && (BelongsTo(f, node) ==> IsWhole(f))
  {
    hide BelongsTo, IsWhole;
    var all := flows + [f];
    assert forall i :: 0 <= i < |flows| ==> all[i] == flows[i];
    assert all[|flows|] == f;
  }

  lemma ContributionParts(f: WiredFlow)
    ensures var c := Contribution(f);
            && c.jitterSamples == Weight(f)
            && (Weight(f) == 0 ==> c.jitterSum == 0)
            && (Weight(f) > 0 ==> c.jitterSum * NS_PER_MS <= f.jitterSumNs < (c.jitterSum + Weight(f)) * NS_PER_MS)
            && (Weight(f) > 0 ==> (c.jitterSum * NS_PER_MS == f.jitterSumNs <==> IsWhole(f)))
            && (Weight(f) == 0 ==> IsWhole(f))
  {
    if Weight(f) > 0 {
      hide Weight;
      TwoDivisions(f.jitterSumNs, NS_PER_MS, Weight(f));
      WeightIsPackets(f);
    }
  }

  lemma WeightIsPackets(f: WiredFlow)
    requires Weight(f) > 0
    ensures f.rxPkts > 1 && Weight(f) == f.rxPkts - 1
  {
  }

  /** The printed average jitter, in milliseconds, never exceeds the exact pooled mean of the
      nanosecond totals and is less than one millisecond below it; the two agree exactly when no
      division had a remainder. */
  lemma JitterAverageBounds(flows: seq<WiredFlow>, node: Node, a: NodeAgg, exactMean: real)
    requires a == TotalTo(flows, node) && a.jitterSamples > 0
    requires exactMean == ExactJitterNs(flows, node) as real / 1000000.0 / a.jitterSamples as real
    ensures JitterAverage(a) <= exactMean < JitterAverage(a) + 1.0
    ensures JitterAverage(a) == exactMean <==> NothingRounded(flows, node)
  {
    RoundingLosses(flows, node);
    hide TotalTo, ExactJitterNs, NothingRounded;
    Quotients(a.jitterSum as real, ExactJitterNs(flows, node) as real / 1000000.0, a.jitterSamples as real);
  }

  lemma Quotients(x: real, y: real, d: real)
    requires d > 0.0 && x <= y < x + d
    ensures x / d <= y / d < x / d + 1.0
    ensures x / d == y / d <==> x == y
  {
    TimesQuotient(x, d);
    TimesQuotient(y, d);
    QuotientOrder(x, d, y / d);
    assert (x / d + 1.0) * d == x + d;
    QuotientOrder(y, d, x / d + 1.0);
  }

  // ---------------------------------------------------------------------------
  // Wireless report: class totals, per-sender totals, fairness
  // ---------------------------------------------------------------------------

  datatype WifiFlow = WifiFlow(
    flowId: nat, rxBytes: nat, rxPackets: nat, txPackets: nat,
    firstTx: real, lastRx: real, delaySumMs: nat, jitterSumMs: nat)

  type FlowInfo = map<nat, (nat, string)>

  /** A flow that is counted, with its port, sender and active duration. */
  datatype Counted = Counted(port: nat, src: string, flow: WifiFlow, activeDur: real)

  function MeasDuration(simTime: real, warmup: real): real {
    if 0.000001 < simTime - warmup then simTime - warmup else 0.000001
  }

  function ActiveDuration(f: WifiFlow, warmup: real, measDuration: real): real {
    var txStart := if warmup < f.firstTx then f.firstTx else warmup;
    var activeDur := if 0.0 < f.lastRx - txStart then f.lastRx - txStart else 0.0;
    if f.rxBytes > 0 && activeDur <= 0.0 then measDuration else activeDur
  }

  /** How long the flow received within the measured part of the run, from the later of warm-up and its
      first packet; a flow with data but no such time counts for all of it. */
  ghost function Span(f: WifiFlow, warmup: real, measDuration: real): real {
    if f.firstTx < f.lastRx && warmup < f.lastRx then
      if warmup <= f.firstTx then f.lastRx - f.firstTx else f.lastRx - warmup
    else if f.rxBytes > 0 then measDuration
    else 0.0
  }

  lemma DurationIs(f: WifiFlow, warmup: real, measDuration: real)
    ensures ActiveDuration(f, warmup, measDuration) == Span(f, warmup, measDuration)
    ensures f.lastRx > f.firstTx >= warmup ==> ActiveDuration(f, warmup, measDuration) + f.firstTx == f.lastRx
    ensures f.lastRx > warmup >= f.firstTx ==> ActiveDuration(f, warmup, measDuration) + warmup == f.lastRx
    ensures f.lastRx <= f.firstTx || f.lastRx <= warmup ==>
              ActiveDuration(f, warmup, measDuration) == if f.rxBytes > 0 then measDuration else 0.0
  {
  }

  /** The measured part of the run, at least a microsecond. */
  lemma MeasDurationIs(simTime: real, warmup: real)
    ensures MeasDuration(simTime, warmup) >= 0.000001
    ensures MeasDuration(simTime, warmup) + warmup == simTime || (MeasDuration(simTime, warmup) == 0.000001 && simTime - warmup < 0.000001)
  {
  }

  /** Flows without received data, unknown flows and other ports are skipped. */
  function Classify(f: WifiFlow, info: FlowInfo, warmup: real, measDuration: real): Option<Counted> {
    if f.rxBytes == 0 && f.rxPackets == 0 then None
    else if f.flowId !in info then None
    else
      var (port, src) := info[f.flowId];
      if port != UPDATE_PORT && port != INTERACTIVE_PORT then None
      else Some(Counted(port, if src == "" then "unknown" else src, f, ActiveDuration(f, warmup, measDuration)))
  }

  ghost function CountedFlows(flows: seq<WifiFlow>, info: FlowInfo, warmup: real, measDuration: real): seq<Counted> {
    if flows == [] then [] else
      CountedFlows(flows[..|flows| - 1], info, warmup, measDuration)
      + (match Classify(flows[|flows| - 1], info, warmup, measDuration) case Some(c) => [c] case None => [])
  }

  datatype Totals = Totals(rxBytes: real, txPkts: real, rxPkts: real, delaySum: real, durSum: real, jitterSum: real)

  function AddTo(t: Totals, c: Counted): Totals {
    Totals(t.rxBytes + c.flow.rxBytes as real, t.txPkts + c.flow.txPackets as real,
           t.rxPkts + c.flow.rxPackets as real, t.delaySum + c.flow.delaySumMs as real,
           t.durSum + c.activeDur, t.jitterSum + c.flow.jitterSumMs as real)
  }

  /** The totals of the counted flows of one class, of one sender or (`None`) of all senders. */
  ghost function TotalsOf(flows: seq<Counted>, port: nat, src: Option<string>): Totals {
    if flows == [] then Totals(0.0, 0.0, 0.0, 0.0, 0.0, 0.0) else
      var front, last := TotalsOf(flows[..|flows| - 1], port, src), flows[|flows| - 1];
      if last.port == port && (src.None? || src.value == last.src) then AddTo(front, last) else front
  }

  datatype Sender = Sender(port: nat, name: string)

  /** The fields of the totals, and what a flow adds to each. */
  datatype Quantity = Bytes | Sent | Received | Delay | Seconds | Jitter

  ghost function TotalOf(t: Totals, q: Quantity): real {
    match q
    case Bytes => t.rxBytes
    case Sent => t.txPkts
    case Received => t.rxPkts
    case Delay => t.delaySum
    case Seconds => t.durSum
    case Jitter => t.jitterSum
  }

  ghost function Amount(f: WifiFlow, q: Quantity, warmup: real, measDuration: real): real {
    match q
    case Bytes => f.rxBytes as real
    case Sent => f.txPackets as real
    case Received => f.rxPackets as real
    case Delay => f.delaySumMs as real
    case Seconds => Span(f, warmup, measDuration)
    case Jitter => f.jitterSumMs as real
  }

  /** The flow received something, is known, goes to `port` and, if one is given, comes from `src`. */
  ghost predicate IsOf(f: WifiFlow, info: FlowInfo, port: nat, src: Option<string>) {
    && (f.rxBytes > 0 || f.rxPackets > 0)
    && f.flowId in info && info[f.flowId].0 == port
    && (src.Some? ==> src.value != "" && (info[f.flowId].1 == src.value || (info[f.flowId].1 == "" && src.value == "unknown")))
  }

  /** The sum of a quantity over the flows of a class or of one of its senders. */
  ghost function SumOf(flows: seq<WifiFlow>, info: FlowInfo, port: nat, src: Option<string>, q: Quantity,
                       warmup: real, measDuration: real): real {
    if flows == [] then 0.0 else
      var last := flows[|flows| - 1];
      SumOf(flows[..|flows| - 1], info, port, src, q, warmup, measDuration)
      + if IsOf(last, info, port, src) then Amount(last, q, warmup, measDuration) else 0.0
  }

  lemma ClassifyIs(f: WifiFlow, info: FlowInfo, port: nat, src: Option<string>, warmup: real, measDuration: real)
    requires port == UPDATE_PORT || port == INTERACTIVE_PORT
    ensures var c := Classify(f, info, warmup, measDuration);
            && (IsOf(f, info, port, src) <==> c.Some? && c.value.port == port && (src.None? || src.value == c.value.src))
            && (c.Some? ==> c.value.flow == f && c.value.activeDur == Span(f, warmup, measDuration))
  {
    DurationIs(f, warmup, measDuration);
  }

  /** Every total is the sum over the flows themselves. */
  lemma {:induction false} TotalsAre(flows: seq<WifiFlow>, info: FlowInfo, port: nat, src: Option<string>, q: Quantity,
                                     warmup: real, measDuration: real)
    requires port == UPDATE_PORT || port == INTERACTIVE_PORT
    ensures TotalOf(TotalsOf(CountedFlows(flows, info, warmup, measDuration), port, src), q)
         == SumOf(flows, info, port, src, q, warmup, measDuration)
  {
    hide Classify, IsOf, ActiveDuration, Span, CountedFlows, AddTo, TotalOf, TotalsOf, SumOf, Amount;
    if flows == [] {
      TotalsOfNone(info, port, src, q, warmup, measDuration);
    } else {
      var front, last := flows[..|flows| - 1], flows[|flows| - 1];
      TotalsAre(front, info, port, src, q, warmup, measDuration);
      ClassifyIs(last, info, port, src, warmup, measDuration);
      CountedNext(flows, info, warmup, measDuration);
      SumOfNext(flows, info, port, src, q, warmup, measDuration);
      if Classify(last, info, warmup, measDuration).Some? {
        var counted, c := CountedFlows(front, info, warmup, measDuration), Classify(last, info, warmup, measDuration).value;
        TotalsNext(counted, port, src, c);
        AddToAdds(TotalsOf(counted, port, src), c, q, warmup, measDuration);
      }
    }
  }

  lemma TotalsOfNone(info: FlowInfo, port: nat, src: Option<string>, q: Quantity, warmup: real, measDuration: real)
    ensures TotalOf(TotalsOf(CountedFlows([], info, warmup, measDuration), port, src), q) == 0.0
    ensures SumOf([], info, port, src, q, warmup, measDuration) == 0.0
  {
  }

  lemma SumOfNext(flows: seq<WifiFlow>, info: FlowInfo, port: nat, src: Option<string>, q: Quantity, warmup: real, measDuration: real)
    requires flows != []
    ensures var last := flows[|flows| - 1];
            SumOf(flows, info, port, src, q, warmup, measDuration)
            == SumOf(flows[..|flows| - 1], info, port, src, q, warmup, measDuration)
               + if IsOf(last, info, port, src) then Amount(last, q, warmup, measDuration) else 0.0
  {
  }

  lemma CountedNext(flows: seq<WifiFlow>, info: FlowInfo, warmup: real, measDuration: real)
    requires flows != []
    ensures var front := CountedFlows(flows[..|flows| - 1], info, warmup, measDuration);
            CountedFlows(flows, info, warmup, measDuration)
            == match Classify(flows[|flows| - 1], info, warmup, measDuration) case Some(c) => front + [c] case None => front
  {
  }

  lemma AddToAdds(t: Totals, c: Counted, q: Quantity, warmup: real, measDuration: real)
    requires c.activeDur == Span(c.flow, warmup, measDuration)
    ensures TotalOf(AddTo(t, c), q) == TotalOf(t, q) + Amount(c.flow, q, warmup, measDuration)
  {
  }

  /** Flow `k` is the only one of its sender. */
  ghost predicate IsSole(flows: seq<WifiFlow>, info: FlowInfo, sender: Sender, k: nat) {
    && k < |flows|
    && forall i :: 0 <= i < |flows| ==> (IsOf(flows[i], info, sender.port, Some(sender.name)) <==> i == k)
  }

  lemma {:induction false} SumOfSole(flows: seq<WifiFlow>, info: FlowInfo, sender: Sender, k: nat, q: Quantity,
                                     warmup: real, measDuration: real)
    requires k < |flows| && forall i :: 0 <= i < |flows| ==> (IsOf(flows[i], info, sender.port, Some(sender.name)) ==> i == k)
    requires IsOf(flows[k], info, sender.port, Some(sender.name))
    ensures SumOf(flows, info, sender.port, Some(sender.name), q, warmup, measDuration) == Amount(flows[k], q, warmup, measDuration)
  {
    hide IsOf, Amount;
    var front := flows[..|flows| - 1];
    if k == |flows| - 1 {
      SumOfNone(front, info, sender, q, warmup, measDuration);
    } else {
      SumOfSole(front, info, sender, k, q, warmup, measDuration);
    }
  }

  lemma {:induction false} SumOfNone(flows: seq<WifiFlow>, info: FlowInfo, sender: Sender, q: Quantity, warmup: real, measDuration: real)
    requires forall i :: 0 <= i < |flows| ==> !IsOf(flows[i], info, sender.port, Some(sender.name))
    ensures SumOf(flows, info, sender.port, Some(sender.name), q, warmup, measDuration) == 0.0
  {
    if flows != [] { SumOfNone(flows[..|flows| - 1], info, sender, q, warmup, measDuration); }
  }

  /** Received bytes and active seconds, per sender. */
  type PerSender = map<string, (real, real)>

  function AddSender(m: PerSender, c: Counted): PerSender {
    var soFar := if c.src in m then m[c.src] else (0.0, 0.0);
    m[c.src := (soFar.0 + c.flow.rxBytes as real, soFar.1 + c.activeDur)]
  }

  ghost function SumOver(m: PerSender): (real, real) {
    if m == map[] then (0.0, 0.0) else
      var s :| s in m;
      var rest := SumOver(m - {s});
      (m[s].0 + rest.0, m[s].1 + rest.1)
  }

  lemma {:induction false} SumOverSplit(m: PerSender, s: string)
    requires s in m
    ensures var rest := SumOver(m - {s}); SumOver(m) == (m[s].0 + rest.0, m[s].1 + rest.1)
    decreases |m|
  {
    var k :| k in m && SumOver(m) == (m[k].0 + SumOver(m - {k}).0, m[k].1 + SumOver(m - {k}).1);
    if k != s {
      assert (m - {k}) - {s} == (m - {s}) - {k};
      SumOverSplit(m - {k}, s);
      SumOverSplit(m - {s}, k);
    }
  }

  lemma AddSenderSum(m: PerSender, c: Counted)
    ensures SumOver(AddSender(m, c)) == (SumOver(m).0 + c.flow.rxBytes as real, SumOver(m).1 + c.activeDur)
  {
    hide SumOver;
    var n := AddSender(m, c);
    SumOverSplit(n, c.src);
    assert n - {c.src} == m - {c.src};
    if c.src in m { SumOverSplit(m, c.src); } else { assert m - {c.src} == m; }
  }

  ghost predicate HasSender(flows: seq<Counted>, port: nat, s: string) {
    exists i :: 0 <= i < |flows| && flows[i].port == port && flows[i].src == s
  }

  /** The sender's own entry: absent if it has no flow of the class, else its exact totals. */
  ghost predicate EntryIsExact(m: PerSender, flows: seq<Counted>, port: nat, s: string) {
    && (s in m <==> HasSender(flows, port, s))
    && (s in m ==> m[s] == (TotalsOf(flows, port, Some(s)).rxBytes, TotalsOf(flows, port, Some(s)).durSum))
  }

  /** Each sender has its own totals, and together they are the totals of the class. */
  ghost predicate Distributes(m: PerSender, flows: seq<Counted>, port: nat) {
    && (forall s :: EntryIsExact(m, flows, port, s))
    && SumOver(m) == (TotalsOf(flows, port, None).rxBytes, TotalsOf(flows, port, None).durSum)
  }

  lemma {:induction false} AbsentSenderHasNothing(flows: seq<Counted>, port: nat, s: string)
    requires !HasSender(flows, port, s)
    ensures TotalsOf(flows, port, Some(s)).rxBytes == 0.0 && TotalsOf(flows, port, Some(s)).durSum == 0.0
  {
    if flows != [] {
      var front, last := flows[..|flows| - 1], flows[|flows| - 1];
      assert flows == front + [last];
      HasSenderNext(front, port, s, last);
      AbsentSenderHasNothing(front, port, s);
    }
  }

  lemma TotalsNext(flows: seq<Counted>, port: nat, src: Option<string>, c: Counted)
    ensures TotalsOf(flows + [c], port, src)
         == if c.port == port && (src.None? || src.value == c.src) then AddTo(TotalsOf(flows, port, src), c)
            else TotalsOf(flows, port, src)
  {
    assert (flows + [c])[..|flows + [c]| - 1] == flows;
  }

  lemma HasSenderNext(flows: seq<Counted>, port: nat, s: string, c: Counted)
    ensures HasSender(flows + [c], port, s) <==> HasSender(flows, port, s) || (c.port == port && c.src == s)
  {
    var all := flows + [c];
    if i :| 0 <= i < |flows| && flows[i].port == port && flows[i].src == s {
      assert all[i] == flows[i];
    }
    assert all[|flows|] == c;
  }

  lemma EntryNext(m: PerSender, flows: seq<Counted>, port: nat, c: Counted, s: string)
    requires EntryIsExact(m, flows, port, s)
    ensures EntryIsExact(if c.port == port then AddSender(m, c) else m, flows + [c], port, s)
  {
    hide HasSender, TotalsOf;
    TotalsNext(flows, port, Some(s), c);
    HasSenderNext(flows, port, s, c);
    if s !in m { AbsentSenderHasNothing(flows, port, s); }
  }

  lemma DistributesNext(m: PerSender, flows: seq<Counted>, port: nat, c: Counted)
    requires Distributes(m, flows, port)
    ensures Distributes(if c.port == port then AddSender(m, c) else m, flows + [c], port)
  {
    hide EntryIsExact, SumOver, TotalsOf, AddSender;
    var next, all := if c.port == port then AddSender(m, c) else m, flows + [c];
    forall s ensures EntryIsExact(next, all, port, s) {
      EntryNext(m, flows, port, c, s);
    }
    TotalsNext(flows, port, None, c);
    AddSenderSum(m, c);
  }

  /** The flow loop of RunScenario. */
  method AggregateClasses(flows: seq<WifiFlow>, info: FlowInfo, warmup: real, measDuration: real)
    returns (update: Totals, interactive: Totals, updateBySender: PerSender, interactiveBySender: PerSender)
    ensures var counted := CountedFlows(flows, info, warmup, measDuration);
            && update == TotalsOf(counted, UPDATE_PORT, None)
            && interactive == TotalsOf(counted, INTERACTIVE_PORT, None)
            && Distributes(updateBySender, counted, UPDATE_PORT)
            && Distributes(interactiveBySender, counted, INTERACTIVE_PORT)
    ensures forall q :: TotalOf(update, q) == SumOf(flows, info, UPDATE_PORT, None, q, warmup, measDuration)
                        && TotalOf(interactive, q) == SumOf(flows, info, INTERACTIVE_PORT, None, q, warmup, measDuration)
    ensures forall s :: (s in updateBySender ==>
              updateBySender[s] == (SumOf(flows, info, UPDATE_PORT, Some(s), Bytes, warmup, measDuration),
                                    SumOf(flows, info, UPDATE_PORT, Some(s), Seconds, warmup, measDuration)))
    ensures forall s :: (s in interactiveBySender ==>
              interactiveBySender[s] == (SumOf(flows, info, INTERACTIVE_PORT, Some(s), Bytes, warmup, measDuration),
                                         SumOf(flows, info, INTERACTIVE_PORT, Some(s), Seconds, warmup, measDuration)))
  {
    update, interactive := Totals(0.0, 0.0, 0.0, 0.0, 0.0, 0.0), Totals(0.0, 0.0, 0.0, 0.0, 0.0, 0.0);
    updateBySender, interactiveBySender := map[], map[];
    ghost var counted: seq<Counted> := [];
    assert Distributes(updateBySender, counted, UPDATE_PORT);
    assert Distributes(interactiveBySender, counted, INTERACTIVE_PORT);
    hide Distributes, ActiveDuration, AddTo, AddSender;
    for i := 0 to |flows|
      invariant counted == CountedFlows(flows[..i], info, warmup, measDuration)
      invariant update == TotalsOf(counted, UPDATE_PORT, None)
      invariant interactive == TotalsOf(counted, INTERACTIVE_PORT, None)
      invariant Distributes(updateBySender, counted, UPDATE_PORT)
      invariant Distributes(interactiveBySender, counted, INTERACTIVE_PORT)
    {
      assert flows[..i + 1][..i] == flows[..i];
      var fs := flows[i];
      if fs.rxBytes == 0 && fs.rxPackets == 0 {
        continue;
      }
      if fs.flowId !in info {
        continue;
      }
      var (dport, name) := info[fs.flowId];
      var src := if name == "" then "unknown" else name;
      if dport != UPDATE_PORT && dport != INTERACTIVE_PORT {
        continue;
      }
      var c := Counted(dport, src, fs, ActiveDuration(fs, warmup, measDuration));
      DistributesNext(updateBySender, counted, UPDATE_PORT, c);
      DistributesNext(interactiveBySender, counted, INTERACTIVE_PORT, c);
      assert (counted + [c])[..|counted|] == counted;
      counted := counted + [c];
      if dport == UPDATE_PORT {
        update := AddTo(update, c);
        updateBySender := AddSender(updateBySender, c);
      } else {
        interactive := AddTo(interactive, c);
        interactiveBySender := AddSender(interactiveBySender, c);
      }
    }
    assert flows[..|flows|] == flows;
    SumsAre(flows, info, warmup, measDuration, updateBySender, UPDATE_PORT);
    SumsAre(flows, info, warmup, measDuration, interactiveBySender, INTERACTIVE_PORT);
  }

  lemma SumsAre(flows: seq<WifiFlow>, info: FlowInfo, warmup: real, measDuration: real, m: PerSender, port: nat)
    requires port == UPDATE_PORT || port == INTERACTIVE_PORT
    requires Distributes(m, CountedFlows(flows, info, warmup, measDuration), port)
    ensures forall q :: TotalOf(TotalsOf(CountedFlows(flows, info, warmup, measDuration), port, None), q)
                        == SumOf(flows, info, port, None, q, warmup, measDuration)
    ensures forall s :: s in m ==> m[s] == (SumOf(flows, info, port, Some(s), Bytes, warmup, measDuration),
                                            SumOf(flows, info, port, Some(s), Seconds, warmup, measDuration))
  {
    hide TotalsOf, CountedFlows, SumOf, SumOver, HasSender;
    var counted := CountedFlows(flows, info, warmup, measDuration);
    forall q ensures TotalOf(TotalsOf(counted, port, None), q) == SumOf(flows, info, port, None, q, warmup, measDuration) {
      TotalsAre(flows, info, port, None, q, warmup, measDuration);
    }
    forall s | s in m
      ensures m[s] == (SumOf(flows, info, port, Some(s), Bytes, warmup, measDuration),
                       SumOf(flows, info, port, Some(s), Seconds, warmup, measDuration))
    {
      assert EntryIsExact(m, counted, port, s);
      TotalsAre(flows, info, port, Some(s), Bytes, warmup, measDuration);
      TotalsAre(flows, info, port, Some(s), Seconds, warmup, measDuration);
    }
  }

  // ---------------------------------------------------------------------------
  // Wireless report: throughput of every sender and Jain's index
  // ---------------------------------------------------------------------------

  const UPDATE_LABEL := "rLEDBAT src="
  const INTERACTIVE_LABEL := "Interactive src="

  ghost function Label(sender: Sender): string {
    (if sender.port == UPDATE_PORT then "rLEDBAT src=" else "Interactive src=") + sender.name
  }

  /** Megabits per active second. */
  function Throughput(bd: (real, real)): real {
    if bd.1 > 0.0 then bd.0 * 8.0 / bd.1 / 1000000.0 else 0.0
  }

  ghost function SenderTput(flows: seq<Counted>, sender: Sender): real {
    var t := TotalsOf(flows, sender.port, Some(sender.name));
    Throughput((t.rxBytes, t.durSum))
  }

  ghost predicate IsSender(flows: seq<Counted>, sender: Sender) {
    (sender.port == UPDATE_PORT || sender.port == INTERACTIVE_PORT) && HasSender(flows, sender.port, sender.name)
  }

  /** The list names every sender of either class once, each with the throughput of all its flows. */
  ghost predicate ListsSenders(tputs: seq<(string, real)>, senders: seq<Sender>, flows: seq<Counted>) {
    && NoDuplicates(senders) && |tputs| == |senders|
    && (forall k :: k in senders <==> IsSender(flows, k))
    && (forall i :: 0 <= i < |senders| ==> tputs[i] == (Label(senders[i]), SenderTput(flows, senders[i])))
  }

  ghost predicate ListsMap(tputs: seq<(string, real)>, names: seq<string>, m: PerSender, prefix: string) {
    && NoDuplicates(names) && |tputs| == |names|
    && (forall s :: s in names ==> s in m)
    && (forall i :: 0 <= i < |names| ==> tputs[i] == (prefix + names[i], Throughput(m[names[i]])))
  }

  /** One pass over a per-sender map, in any order. */
  method Throughputs(m: PerSender, prefix: string) returns (tputs: seq<(string, real)>, ghost names: seq<string>)
    ensures ListsMap(tputs, names, m, prefix)
    ensures forall s :: s in m ==> s in names
  {
    hide Throughput;
    tputs, names := [], [];
    var rest := m.Keys;
    while rest != {}
      invariant forall s :: s in m <==> s in rest || s in names
      invariant forall s :: s in names ==> s !in rest
      invariant ListsMap(tputs, names, m, prefix)
      decreases |rest|
    {
      var s :| s in rest;
      tputs := tputs + [(prefix + s, Throughput(m[s]))];
      names := names + [s];
      rest := rest - {s};
    }
  }

  /** The throughputs of both classes, one list after the other. */
  method PerSenderTput(update: PerSender, interactive: PerSender, ghost flows: seq<Counted>)
    returns (tputs: seq<(string, real)>, ghost senders: seq<Sender>)
    requires Distributes(update, flows, UPDATE_PORT) && Distributes(interactive, flows, INTERACTIVE_PORT)
    ensures ListsSenders(tputs, senders, flows)
  {
    var updates, updateNames := Throughputs(update, UPDATE_LABEL);
    var interactives, interactiveNames := Throughputs(interactive, INTERACTIVE_LABEL);
    tputs := updates + interactives;
    senders := Tagged(UPDATE_PORT, updateNames) + Tagged(INTERACTIVE_PORT, interactiveNames);
    MapIsTagged(updates, updateNames, update, UPDATE_PORT, flows);
    MapIsTagged(interactives, interactiveNames, interactive, INTERACTIVE_PORT, flows);
    BothListed(updates, Tagged(UPDATE_PORT, updateNames), interactives, Tagged(INTERACTIVE_PORT, interactiveNames), flows);
  }

  ghost function Tagged(port: nat, names: seq<string>): (r: seq<Sender>)
    ensures |r| == |names| && forall i :: 0 <= i < |r| ==> r[i] == Sender(port, names[i])
  {
    seq(|names|, i requires 0 <= i < |names| => Sender(port, names[i]))
  }

  /** The same for the senders of one class. */
  ghost predicate ListsClass(tputs: seq<(string, real)>, senders: seq<Sender>, flows: seq<Counted>, port: nat) {
    && NoDuplicates(senders) && |tputs| == |senders|
    && (forall k :: k in senders <==> k.port == port && IsSender(flows, k))
    && (forall i :: 0 <= i < |senders| ==> tputs[i] == (Label(senders[i]), SenderTput(flows, senders[i])))
  }

  lemma MapIsTagged(tputs: seq<(string, real)>, names: seq<string>, m: PerSender, port: nat, flows: seq<Counted>)
    requires port == UPDATE_PORT || port == INTERACTIVE_PORT
    requires ListsMap(tputs, names, m, if port == UPDATE_PORT then UPDATE_LABEL else INTERACTIVE_LABEL)
    requires (forall s :: s in m ==> s in names) && Distributes(m, flows, port)
    ensures ListsClass(tputs, Tagged(port, names), flows, port)
  {
    hide TotalsOf, SumOver, HasSender, Throughput;
    var senders := Tagged(port, names);
    forall k ensures k in senders <==> k.port == port && IsSender(flows, k) {
      assert EntryIsExact(m, flows, port, k.name);
      if k.port == port && k.name in names {
        var i :| 0 <= i < |names| && names[i] == k.name;
        assert senders[i] == k;
      }
    }
    forall i | 0 <= i < |senders| ensures tputs[i] == (Label(senders[i]), SenderTput(flows, senders[i])) {
      assert names[i] in names;
      assert EntryIsExact(m, flows, port, names[i]);
    }
  }

  lemma BothListed(tputs: seq<(string, real)>, senders: seq<Sender>, moreTputs: seq<(string, real)>, moreSenders: seq<Sender>,
                   flows: seq<Counted>)
    requires ListsClass(tputs, senders, flows, UPDATE_PORT) && ListsClass(moreTputs, moreSenders, flows, INTERACTIVE_PORT)
    ensures ListsSenders(tputs + moreTputs, senders + moreSenders, flows)
  {
    hide HasSender, SenderTput, Label;
    NoDuplicatesConcat(senders, moreSenders);
  }

  /** No two senders share a label. */
  lemma LabelsDiffer(a: Sender, b: Sender)
    requires a.port in {UPDATE_PORT, INTERACTIVE_PORT} && b.port in {UPDATE_PORT, INTERACTIVE_PORT}
    ensures Label(a) == Label(b) ==> a == b
  {
    if a.port == b.port {
      var n := |if a.port == UPDATE_PORT then UPDATE_LABEL else INTERACTIVE_LABEL|;
      assert Label(a)[n..] == a.name && Label(b)[n..] == b.name;
    } else {
      assert Label(a)[0] != Label(b)[0];
    }
  }

  ghost predicate IsActive(c: Counted) {
    c.activeDur >= 0.0 && (c.flow.rxBytes > 0 ==> c.activeDur > 0.0)
  }

  ghost predicate AllActive(flows: seq<Counted>) {
    forall i :: 0 <= i < |flows| ==> IsActive(flows[i])
  }

  /** Whoever received data was active, and nothing is negative. */
  lemma {:induction false} SharesAreSound(flows: seq<Counted>, port: nat, src: Option<string>)
    requires AllActive(flows)
    ensures var t := TotalsOf(flows, port, src);
            t.rxBytes >= 0.0 && t.durSum >= 0.0 && (t.rxBytes > 0.0 ==> t.durSum > 0.0)
  {
    if flows != [] { SharesAreSound(flows[..|flows| - 1], port, src); }
  }

  lemma {:induction false} CountedIsSound(flows: seq<WifiFlow>, info: FlowInfo, warmup: real, measDuration: real)
    requires measDuration > 0.0
    ensures AllActive(CountedFlows(flows, info, warmup, measDuration))
  {
    if flows != [] {
      CountedIsSound(flows[..|flows| - 1], info, warmup, measDuration);
      var front, last := CountedFlows(flows[..|flows| - 1], info, warmup, measDuration), flows[|flows| - 1];
      match Classify(last, info, warmup, measDuration)
      case None =>
      case Some(c) =>
        assert IsActive(c);
        assert CountedFlows(flows, info, warmup, measDuration) == front + [c];
    }
  }

  lemma ThroughputSign(bd: (real, real))
    requires bd.0 >= 0.0 && (bd.0 > 0.0 ==> bd.1 > 0.0)
    ensures Throughput(bd) >= 0.0 && (Throughput(bd) == 0.0 <==> bd.0 == 0.0)
  {
    if bd.1 > 0.0 {
      hide Throughput;
      ThroughputIs(bd);
      QuotientSign(bd.0 * 8.0, bd.1);
    }
  }

  lemma ThroughputIs(bd: (real, real))
    requires bd.1 > 0.0
    ensures Throughput(bd) == bd.0 * 8.0 / bd.1 / 1000000.0
  {
  }

  lemma QuotientSign(x: real, d: real)
    requires x >= 0.0 && d > 0.0
    ensures x / d >= 0.0 && (x / d == 0.0 <==> x == 0.0)
  {
  }

  ghost function Values(tputs: seq<(string, real)>): (r: seq<real>)
    ensures |r| == |tputs| && forall i :: 0 <= i < |r| ==> r[i] == tputs[i].1
  {
    seq(|tputs|, i requires 0 <= i < |tputs| => tputs[i].1)
  }

  /** The fairness loop over the per-sender throughputs. */
  method JainFairness(perSenderTput: seq<(string, real)>) returns (jain: real)
    ensures var xs := Values(perSenderTput);
            && (xs == [] || SumSquares(xs) <= 0.0 ==> jain == 1.0)
            && (xs != [] && SumSquares(xs) > 0.0 ==> jain == Jain(xs))
            && (xs != [] && SumSquares(xs) > 0.0 ==> jain * (|xs| as real * SumSquares(xs)) == Sum(xs) * Sum(xs))
            && (NonNegative(xs) && xs != [] ==> 1.0 / |xs| as real <= jain <= 1.0)
            && (NonNegative(xs) ==> (jain == 1.0 <==> AllEqual(xs)))
  {
    hide Sum, SumSquares, Jain, NonNegative, AllEqual, Square;
    ghost var xs := Values(perSenderTput);
    assert xs[..0] == [];
    EmptySums();
    var sx, sx2, nn := 0.0, 0.0, 0;
    for i := 0 to |perSenderTput|
      invariant nn == i
      invariant sx == Sum(xs[..i]) && sx2 == SumSquares(xs[..i])
    {
      var t := perSenderTput[i].1;
      assert xs[..i + 1] == xs[..i] + [t];
      Append(xs[..i], t, 0.0);
      SquareIs(t);
      sx, sx2, nn := sx + t, sx2 + t * t, nn + 1;
    }
    assert xs[..|xs|] == xs;
    if nn > 0 && sx2 > 0.0 {
      JainIs(xs, sx, sx2);
      TimesQuotient(sx * sx, nn as real * sx2);
      if NonNegative(xs) { JainBounds(xs); }
      jain := (sx * sx) / (nn as real * sx2);
    } else {
      jain := 1.0;
      ZerosAreEqual(xs);
      if nn > 0 { OneOverCount(nn); }
    }
  }

  lemma EmptySums()
    ensures Sum([]) == 0.0 && SumSquares([]) == 0.0
  {
  }

  lemma ZerosAreEqual(xs: seq<real>)
    ensures xs == [] || SumSquares(xs) <= 0.0 ==> AllEqual(xs)
  {
    hide SumSquares;
    SumSquaresZeroIff(xs);
  }

  /** From the flow statistics of a run to its fairness index: the index is that of the throughputs of
      the run's senders, between 1/n and 1, and 1 exactly when all of them are equal. A sender has
      throughput zero exactly when it received nothing. */
  method RunFairness(flows: seq<WifiFlow>, info: FlowInfo, simTime: real, warmup: real)
    returns (perSenderTput: seq<(string, real)>, jain: real, ghost senders: seq<Sender>)
    ensures var counted := CountedFlows(flows, info, warmup, MeasDuration(simTime, warmup));
            && ListsSenders(perSenderTput, senders, counted)
            && forall i :: 0 <= i < |senders| ==>
                 (perSenderTput[i].1 == 0.0 <==> TotalsOf(counted, senders[i].port, Some(senders[i].name)).rxBytes == 0.0)
    ensures forall i :: 0 <= i < |senders| ==>
              perSenderTput[i].1 * SumOf(flows, info, senders[i].port, Some(senders[i].name), Seconds, warmup, MeasDuration(simTime, warmup))
                * 1000000.0
              == SumOf(flows, info, senders[i].port, Some(senders[i].name), Bytes, warmup, MeasDuration(simTime, warmup)) * 8.0
    ensures forall i, k: nat :: 0 <= i < |senders| && IsSole(flows, info, senders[i], k) && flows[k].lastRx > flows[k].firstTx >= warmup ==>
              perSenderTput[i].1 * (flows[k].lastRx - flows[k].firstTx) * 1000000.0 == flows[k].rxBytes as real * 8.0
    ensures forall i :: 0 <= i < |perSenderTput| ==> perSenderTput[i].1 >= 0.0
    ensures var xs := Values(perSenderTput);
            jain == if xs != [] && SumSquares(xs) > 0.0 then Jain(xs) else 1.0
    ensures perSenderTput != [] ==> 1.0 / |perSenderTput| as real <= jain <= 1.0
    ensures jain == 1.0 <==> forall i, j :: 0 <= i < j < |perSenderTput| ==> perSenderTput[i].1 == perSenderTput[j].1
  {
    hide CountedFlows, TotalsOf, Distributes, SumSquares, Jain, HasSender, Label, SenderTput, SumOf, IsSole, IsSender;
    var measDuration := MeasDuration(simTime, warmup);
    ghost var counted := CountedFlows(flows, info, warmup, measDuration);
    var update, interactive, updateBySender, interactiveBySender := AggregateClasses(flows, info, warmup, measDuration);
    perSenderTput, senders := PerSenderTput(updateBySender, interactiveBySender, counted);
    jain := JainFairness(perSenderTput);
    TputsAre(flows, info, warmup, measDuration, perSenderTput, senders);
    ValuesEqualIff(perSenderTput);
  }

  /** What the list says about each sender. */
  lemma TputsAre(flows: seq<WifiFlow>, info: FlowInfo, warmup: real, measDuration: real,
                 tputs: seq<(string, real)>, senders: seq<Sender>)
    requires measDuration > 0.0 && ListsSenders(tputs, senders, CountedFlows(flows, info, warmup, measDuration))
    ensures forall i :: 0 <= i < |senders| ==>
              (tputs[i].1 >= 0.0
               && (tputs[i].1 == 0.0 <==>
                     TotalsOf(CountedFlows(flows, info, warmup, measDuration), senders[i].port, Some(senders[i].name)).rxBytes == 0.0))
    ensures forall i :: 0 <= i < |senders| ==>
              tputs[i].1 * SumOf(flows, info, senders[i].port, Some(senders[i].name), Seconds, warmup, measDuration) * 1000000.0
              == SumOf(flows, info, senders[i].port, Some(senders[i].name), Bytes, warmup, measDuration) * 8.0
    ensures forall i, k: nat :: 0 <= i < |senders| && IsSole(flows, info, senders[i], k) && flows[k].lastRx > flows[k].firstTx >= warmup ==>
              tputs[i].1 * (flows[k].lastRx - flows[k].firstTx) * 1000000.0 == flows[k].rxBytes as real * 8.0
  {
    hide CountedFlows, TotalsOf, HasSender, Label, SenderTput, SumOf, IsOf;
    var counted := CountedFlows(flows, info, warmup, measDuration);
    CountedIsSound(flows, info, warmup, measDuration);
    forall i | 0 <= i < |senders|
      ensures tputs[i].1 == SenderTput(counted, senders[i]) && (senders[i].port == UPDATE_PORT || senders[i].port == INTERACTIVE_PORT)
      ensures tputs[i].1 >= 0.0 && (tputs[i].1 == 0.0 <==> TotalsOf(counted, senders[i].port, Some(senders[i].name)).rxBytes == 0.0)
      ensures tputs[i].1 * SumOf(flows, info, senders[i].port, Some(senders[i].name), Seconds, warmup, measDuration) * 1000000.0
           == SumOf(flows, info, senders[i].port, Some(senders[i].name), Bytes, warmup, measDuration) * 8.0
    {
      assert senders[i] in senders;
      SenderIsSound(counted, senders[i]);
      SenderTputIs(flows, info, warmup, measDuration, senders[i]);
    }
    forall i, k: nat | 0 <= i < |senders| && IsSole(flows, info, senders[i], k) && flows[k].lastRx > flows[k].firstTx >= warmup
      ensures tputs[i].1 * (flows[k].lastRx - flows[k].firstTx) * 1000000.0 == flows[k].rxBytes as real * 8.0
    {
      SoleFlowTput(flows, info, warmup, measDuration, senders[i], k);
    }
  }

  /** Throughput times time is the data, for any sender. */
  lemma SenderTputIs(flows: seq<WifiFlow>, info: FlowInfo, warmup: real, measDuration: real, sender: Sender)
    requires measDuration > 0.0 && (sender.port == UPDATE_PORT || sender.port == INTERACTIVE_PORT)
    ensures SenderTput(CountedFlows(flows, info, warmup, measDuration), sender)
            * SumOf(flows, info, sender.port, Some(sender.name), Seconds, warmup, measDuration) * 1000000.0
         == SumOf(flows, info, sender.port, Some(sender.name), Bytes, warmup, measDuration) * 8.0
  {
    hide TotalsOf, CountedFlows, SumOf, Throughput;
    var counted := CountedFlows(flows, info, warmup, measDuration);
    TotalsAre(flows, info, sender.port, Some(sender.name), Bytes, warmup, measDuration);
    TotalsAre(flows, info, sender.port, Some(sender.name), Seconds, warmup, measDuration);
    CountedIsSound(flows, info, warmup, measDuration);
    SharesAreSound(counted, sender.port, Some(sender.name));
    var t := TotalsOf(counted, sender.port, Some(sender.name));
    ThroughputTimes((t.rxBytes, t.durSum));
  }

  lemma ThroughputTimes(bd: (real, real))
    requires bd.0 >= 0.0 && bd.1 >= 0.0 && (bd.0 > 0.0 ==> bd.1 > 0.0)
    ensures Throughput(bd) * bd.1 * 1000000.0 == bd.0 * 8.0
  {
    if bd.1 > 0.0 { TimesQuotient(bd.0 * 8.0, bd.1); }
  }

  /** A sender with one flow, within the measured part of the run: its data over its own time. */
  lemma SoleFlowTput(flows: seq<WifiFlow>, info: FlowInfo, warmup: real, measDuration: real, sender: Sender, k: nat)
    requires measDuration > 0.0 && (sender.port == UPDATE_PORT || sender.port == INTERACTIVE_PORT)
    requires IsSole(flows, info, sender, k) && flows[k].lastRx > flows[k].firstTx >= warmup
    ensures SenderTput(CountedFlows(flows, info, warmup, measDuration), sender) * (flows[k].lastRx - flows[k].firstTx) * 1000000.0
         == flows[k].rxBytes as real * 8.0
  {
    hide SenderTput, CountedFlows, SumOf, IsOf;
    SenderTputIs(flows, info, warmup, measDuration, sender);
    SumOfSole(flows, info, sender, k, Bytes, warmup, measDuration);
    SumOfSole(flows, info, sender, k, Seconds, warmup, measDuration);
  }

  lemma SenderIsSound(flows: seq<Counted>, sender: Sender)
    requires AllActive(flows)
    ensures SenderTput(flows, sender) >= 0.0
    ensures SenderTput(flows, sender) == 0.0 <==> TotalsOf(flows, sender.port, Some(sender.name)).rxBytes == 0.0
  {
    hide TotalsOf, Throughput;
    SharesAreSound(flows, sender.port, Some(sender.name));
    var t := TotalsOf(flows, sender.port, Some(sender.name));
    ThroughputSign((t.rxBytes, t.durSum));
  }

  lemma ValuesEqualIff(tputs: seq<(string, real)>)
    ensures AllEqual(Values(tputs)) <==> forall i, j :: 0 <= i < j < |tputs| ==> tputs[i].1 == tputs[j].1
  {
    var xs := Values(tputs);
    if AllEqual(xs) {
      forall i, j | 0 <= i < j < |tputs| ensures tputs[i].1 == tputs[j].1 { assert xs[i] == xs[j]; }
    }
  }

  lemma SquareIs(x: real)
    ensures Square(x) == x * x
  {
  }

  lemma OneOverCount(n: nat)
    requires n > 0
    ensures 1.0 / n as real <= 1.0
  {
    QuotientOrder(1.0, n as real, 1.0);
  }

  lemma JainIs(xs: seq<real>, sum: real, squares: real)
    requires xs != [] && sum == Sum(xs) && squares == SumSquares(xs) && squares > 0.0
    ensures |xs| as real * squares > 0.0
    ensures Jain(xs) == (sum * sum) / (|xs| as real * squares)
  {
    SignOfTimes(|xs| as real, squares);
  }
}
