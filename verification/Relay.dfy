/** The cross-instance relay: one broadcast among m + 1 instances, each free to forward what it was
    delivered, each delivery at most once, over a transport that may lose, reorder and delay payloads. */
module Relay {
  import opened RelayWeights

  const MAX_HOPS: nat := 4

  datatype Envelope = Envelope(origin: nat, hops: nat)

  /** A payload on its way to one instance, and a delivery that instance may still forward. */
  datatype Reception = Reception(to: nat, env: Envelope)

  datatype Delivery = Delivery(at: nat, env: Envelope)

  datatype State = State(inbox: seq<Reception>, delivered: seq<Delivery>, publishes: nat, deliveries: nat)

  predicate HopsExhausted(env: Envelope) { env.hops >= MAX_HOPS }

  function Fanout(env: Envelope, n: nat): seq<Reception> {
    seq(n, i requires 0 <= i < n => Reception(i, env))
  }

  /** PublishOut by one instance. */
  function Start(self: nat, m: nat): State {
    State(Fanout(Envelope(self, 0), m + 1), [], 1, 0)
  }

  datatype Step = Receive(i: nat) | Forward(j: nat) | Lose(i: nat)

  predicate CanStep(s: State, step: Step) {
    match step
    case Receive(i) => i < |s.inbox|
    case Forward(j) => j < |s.delivered|
    case Lose(i) => i < |s.inbox|
  }

  /** Run drops its own and exhausted envelopes; Forward refuses exhausted ones, otherwise bumps
      the hops, makes itself the origin and publishes. */
  function Next(s: State, step: Step, m: nat): State
    requires CanStep(s, step)
  {
    match step
    case Lose(i) => s.(inbox := Drop(s.inbox, i))
    case Receive(i) =>
      var r := s.inbox[i];
      if r.env.origin == r.to || HopsExhausted(r.env) then s.(inbox := Drop(s.inbox, i))
      else s.(inbox := Drop(s.inbox, i), delivered := s.delivered + [Delivery(r.to, r.env)],
              deliveries := s.deliveries + 1)
    case Forward(j) =>
      var d := s.delivered[j];
      if HopsExhausted(d.env) then s.(delivered := Drop(s.delivered, j))
      else s.(inbox := s.inbox + Fanout(Envelope(d.at, d.env.hops + 1), m + 1),
              delivered := Drop(s.delivered, j), publishes := s.publishes + 1)
  }

  // ---- what one reception can still cause ---------------------------------

  /** Publishes, deliveries and steps that a reception at this hop count can lead to, when the
      receiver is not the sender itself. */
  function Foreign(hops: nat, m: nat): Weight
    decreases MAX_HOPS - hops
  {
    if hops >= MAX_HOPS then Weight(0, 0, 1)
    else Plus(Weight(0, 1, 1), Kept(hops, m))
  }

  /** What a delivery at this hop count can lead to: one publish and all it causes. */
  function Kept(hops: nat, m: nat): Weight
    requires hops < MAX_HOPS
    decreases MAX_HOPS - hops, 0
  {
    Plus(Weight(1, 0, 1), Spread(Foreign(hops + 1, m), m))
  }

  /** A publish reaches all m + 1 instances, and all but the publisher may act on it. */
  function Spread(w: Weight, m: nat): Weight {
    Plus(Times(m, w), Weight(0, 0, w.steps))
  }

  function ReceptionWeight(m: nat): Reception -> Weight {
    (r: Reception) =>
      if r.to == r.env.origin then Weight(0, 0, Foreign(r.env.hops, m).steps) else Foreign(r.env.hops, m)
  }

  function DeliveryWeight(m: nat): Delivery -> Weight {
    (d: Delivery) => if HopsExhausted(d.env) then Weight(0, 0, 1) else Kept(d.env.hops, m)
  }

  /** What has happened plus the most that still can. */
  function Potential(s: State, m: nat): Weight {
    var (i, d) := (Total(s.inbox, ReceptionWeight(m)), Total(s.delivered, DeliveryWeight(m)));
    Weight(s.publishes + i.publishes + d.publishes, s.deliveries + i.deliveries + d.deliveries, i.steps + d.steps)
  }

  lemma FanoutPush(env: Envelope, n: nat)
    ensures Fanout(env, n + 1) == Fanout(env, n) + [Reception(n, env)]
  {
  }

  /** The weights of a publish's receptions: one instance is the publisher, the others are not. */
  lemma {:induction false} OneOwnOthersForeign(env: Envelope, n: nat, m: nat, w: Weight)
    requires w == Foreign(env.hops, m)
    ensures Total(Fanout(env, n), ReceptionWeight(m))
            == if env.origin < n then Plus(Times(n - 1, w), Weight(0, 0, w.steps)) else Times(n, w)
    decreases n
  {
    if n > 0 {
      var k := n - 1;
      OneOwnOthersForeign(env, k, m, w);
      FanoutPush(env, k);
      TotalPush(Fanout(env, k), Reception(k, env), ReceptionWeight(m));
      assert ReceptionWeight(m)(Reception(k, env)) == if env.origin == k then Weight(0, 0, w.steps) else w;
    }
  }

  lemma FanoutTotal(env: Envelope, m: nat)
    requires env.origin <= m
    ensures Total(Fanout(env, m + 1), ReceptionWeight(m)) == Spread(Foreign(env.hops, m), m)
  {
    OneOwnOthersForeign(env, m + 1, m, Foreign(env.hops, m));
  }

  // ---- every step ---------------------------------------------------------

  ghost predicate Members(s: State, m: nat) {
    && (forall i :: 0 <= i < |s.inbox| ==> s.inbox[i].to <= m && s.inbox[i].env.origin <= m)
    && (forall j :: 0 <= j < |s.delivered| ==> s.delivered[j].at <= m)
  }

  lemma NextHasMembers(s: State, step: Step, m: nat)
    requires Members(s, m) && CanStep(s, step)
    ensures Members(Next(s, step, m), m)
  {
  }

  /** A step that loses nothing keeps the publishes and deliveries that are still to come, and every
      step uses up at least one of the steps that are. */
  lemma StepUsesPotential(s: State, step: Step, m: nat)
    requires Members(s, m) && CanStep(s, step)
    ensures var (p, p') := (Potential(s, m), Potential(Next(s, step, m), m));
            && Members(Next(s, step, m), m)
            && p'.publishes <= p.publishes && p'.deliveries <= p.deliveries && p'.steps < p.steps
            && (!step.Lose? ==> p'.publishes == p.publishes && p'.deliveries == p.deliveries)
  {
    NextHasMembers(s, step, m);
    match step
    case Lose(i) => LoseUsesPotential(s, i, m);
    case Receive(i) => ReceiveUsesPotential(s, i, m);
    case Forward(j) => ForwardUsesPotential(s, j, m);
  }

  ghost predicate Conserved(s: State, s': State, m: nat) {
    var (p, p') := (Potential(s, m), Potential(s', m));
    p'.publishes == p.publishes && p'.deliveries == p.deliveries && p'.steps < p.steps
  }

  lemma LoseUsesPotential(s: State, i: nat, m: nat)
    requires i < |s.inbox|
    ensures var (p, p') := (Potential(s, m), Potential(Next(s, Lose(i), m), m));
            p'.publishes <= p.publishes && p'.deliveries <= p.deliveries && p'.steps < p.steps
  {
    TotalDrop(s.inbox, i, ReceptionWeight(m));
  }

  lemma ReceiveUsesPotential(s: State, i: nat, m: nat)
    requires i < |s.inbox|
    ensures Conserved(s, Next(s, Receive(i), m), m)
  {
    var r := s.inbox[i];
    TotalDrop(s.inbox, i, ReceptionWeight(m));
    if r.env.origin != r.to && !HopsExhausted(r.env) {
      TotalPush(s.delivered, Delivery(r.to, r.env), DeliveryWeight(m));
    }
  }

  lemma ForwardUsesPotential(s: State, j: nat, m: nat)
    requires Members(s, m) && j < |s.delivered|
    ensures Conserved(s, Next(s, Forward(j), m), m)
  {
    if HopsExhausted(s.delivered[j].env) {
      TotalDrop(s.delivered, j, DeliveryWeight(m));
    } else {
      PublishUsesPotential(s, s.delivered[j], j, m);
    }
  }

  /** The state after a delivery has been forwarded. */
  function Forwarded(s: State, d: Delivery, j: nat, m: nat): State
    requires j < |s.delivered|
  {
    State(s.inbox + Fanout(Envelope(d.at, d.env.hops + 1), m + 1), Drop(s.delivered, j), s.publishes + 1, s.deliveries)
  }

  lemma ForwardedInbox(inbox: seq<Reception>, env: Envelope, m: nat)
    requires env.origin <= m
    ensures Total(inbox + Fanout(env, m + 1), ReceptionWeight(m))
            == Plus(Total(inbox, ReceptionWeight(m)), Spread(Foreign(env.hops, m), m))
  {
    FanoutTotal(env, m);
    TotalConcat(inbox, Fanout(env, m + 1), ReceptionWeight(m));
  }

  lemma ForwardedDelivery(delivered: seq<Delivery>, j: nat, m: nat)
    requires j < |delivered| && !HopsExhausted(delivered[j].env)
    ensures Total(delivered, DeliveryWeight(m))
            == Plus(Total(Drop(delivered, j), DeliveryWeight(m)), Kept(delivered[j].env.hops, m))
  {
    TotalDrop(delivered, j, DeliveryWeight(m));
  }

  lemma PublishUsesPotential(s: State, d: Delivery, j: nat, m: nat)
    requires j < |s.delivered| && d == s.delivered[j] && d.at <= m && !HopsExhausted(d.env)
    ensures Conserved(s, Next(s, Forward(j), m), m)
  {
    assert Next(s, Forward(j), m) == Forwarded(s, d, j, m);
    ForwardedUsesPotential(s, d, j, m);
  }

  lemma ForwardedUsesPotential(s: State, d: Delivery, j: nat, m: nat)
    requires j < |s.delivered| && d == s.delivered[j] && d.at <= m && !HopsExhausted(d.env)
    ensures Conserved(s, Forwarded(s, d, j, m), m)
  {
    var s' := Forwarded(s, d, j, m);
    ForwardedInbox(s.inbox, Envelope(d.at, d.env.hops + 1), m);
    ForwardedDelivery(s.delivered, j, m);
    Exchange(s, s', Kept(d.env.hops, m), Spread(Foreign(d.env.hops + 1, m), m), m);
  }

  /** A delivery turned into one publish and that publish's receptions. */
  lemma Exchange(s: State, s': State, taken: Weight, given: Weight, m: nat)
    requires s'.publishes == s.publishes + 1 && s'.deliveries == s.deliveries
    requires Total(s'.inbox, ReceptionWeight(m)) == Plus(Total(s.inbox, ReceptionWeight(m)), given)
    requires Total(s.delivered, DeliveryWeight(m)) == Plus(Total(s'.delivered, DeliveryWeight(m)), taken)
    requires taken == Plus(Weight(1, 0, 1), given)
    ensures Conserved(s, s', m)
  {
  }

  // ---- whole runs ---------------------------------------------------------

  predicate Schedule(s: State, steps: seq<Step>, m: nat)
    decreases |steps|
  {
    steps == [] || (CanStep(s, steps[0]) && Schedule(Next(s, steps[0], m), steps[1..], m))
  }

  function After(s: State, steps: seq<Step>, m: nat): State
    requires Schedule(s, steps, m)
    decreases |steps|
  {
    if steps == [] then s else After(Next(s, steps[0], m), steps[1..], m)
  }

  lemma {:induction false} RunUsesPotential(s: State, steps: seq<Step>, m: nat)
    requires Members(s, m) && Schedule(s, steps, m)
    ensures var (p, p') := (Potential(s, m), Potential(After(s, steps, m), m));
            p'.publishes <= p.publishes && p'.deliveries <= p.deliveries && p'.steps + |steps| <= p.steps
    decreases |steps|
  {
    if steps != [] {
      StepUsesPotential(s, steps[0], m);
      RunUsesPotential(Next(s, steps[0], m), steps[1..], m);
    }
  }

  function Power(m: nat, k: nat): nat {
    if k == 0 then 1 else m * Power(m, k - 1)
  }

  lemma StartTotals(self: nat, m: nat, w: Weight)
    requires self <= m && w == Foreign(0, m)
    ensures Members(Start(self, m), m)
    ensures var p := Potential(Start(self, m), m);
            p.publishes == 1 + m * w.publishes && p.deliveries == m * w.deliveries
  {
    FanoutTotal(Envelope(self, 0), m);
    TimesIsProduct(m, w);
    TotalNone([], DeliveryWeight(m));
  }

  lemma StartPotential(self: nat, m: nat)
    requires self <= m
    ensures Members(Start(self, m), m)
    ensures var p := Potential(Start(self, m), m);
            && p.publishes == Power(m, 0) + Power(m, 1) + Power(m, 2) + Power(m, 3) + Power(m, 4)
            && p.deliveries == Power(m, 1) + Power(m, 2) + Power(m, 3) + Power(m, 4)
  {
    StartTotals(self, m, Foreign(0, m));
    RootWeight(0, m);
    Horner(m);
  }

  /** Publishes and deliveries a reception with this many hops left can lead to. */
  function Reach(left: nat, m: nat): nat {
    if left == 0 then 0 else 1 + m * Reach(left - 1, m)
  }

  lemma {:induction false} ForeignIsReach(hops: nat, left: nat, m: nat)
    requires hops + left == MAX_HOPS
    ensures Foreign(hops, m).publishes == Foreign(hops, m).deliveries == Reach(left, m)
    decreases left
  {
    if left > 0 {
      ForeignIsReach(hops + 1, left - 1, m);
      OneHop(hops, m);
    }
  }

  lemma FourHops(m: nat)
    ensures Reach(4, m) == 1 + m * (1 + m * (1 + m))
  {
    assert Reach(1, m) == 1 + m * Reach(0, m) == 1;
    assert Reach(2, m) == 1 + m * Reach(1, m) == 1 + m;
    assert Reach(3, m) == 1 + m * Reach(2, m) == 1 + m * (1 + m);
  }

  /** The weight of a first-hop reception, written out. */
  lemma RootWeight(h: nat, m: nat)
    requires h + 4 == MAX_HOPS
    ensures var w := Foreign(h, m);
            w.publishes == w.deliveries == 1 + m * (1 + m * (1 + m))
  {
    ForeignIsReach(h, 4, m);
    FourHops(m);
  }

  lemma OneHop(hops: nat, m: nat)
    requires hops < MAX_HOPS
    ensures Foreign(hops, m).publishes == 1 + m * Foreign(hops + 1, m).publishes
    ensures Foreign(hops, m).deliveries == 1 + m * Foreign(hops + 1, m).deliveries
  {
    TimesIsProduct(m, Foreign(hops + 1, m));
  }

  lemma Horner(m: nat)
    ensures m * (1 + m * (1 + m * (1 + m))) == Power(m, 1) + Power(m, 2) + Power(m, 3) + Power(m, 4)
  {
    var (m2, m3) := (m * m, m * (m * m));
    assert Power(m, 1) == m * Power(m, 0) == m;
    assert Power(m, 2) == m * Power(m, 1) == m2;
    assert Power(m, 3) == m * Power(m, 2) == m3;
    assert Power(m, 4) == m * Power(m, 3) == m * m3;
    assert m * (1 + m) == m + m2;
    assert m * (1 + m + m2) == m + m2 + m3;
    assert m * (1 + m + m2 + m3) == m + m2 + m3 + m * m3;
  }

  /** Steps a reception with this many hops left can lead to. */
  function StepReach(left: nat, m: nat): nat {
    if left == 0 then 1 else 2 + (m + 1) * StepReach(left - 1, m)
  }

  lemma OneHopSteps(hops: nat, m: nat)
    requires hops < MAX_HOPS
    ensures Foreign(hops, m).steps == 2 + (m + 1) * Foreign(hops + 1, m).steps
  {
    var w := Foreign(hops + 1, m);
    TimesSteps(m, w);
    OneMoreTime(m, w.steps);
    assert Kept(hops, m).steps == 1 + Spread(w, m).steps;
  }

  lemma {:induction false} ForeignSteps(hops: nat, left: nat, m: nat)
    requires hops + left == MAX_HOPS
    ensures Foreign(hops, m).steps == StepReach(left, m)
    decreases left
  {
    if left > 0 {
      ForeignSteps(hops + 1, left - 1, m);
      OneHopSteps(hops, m);
    }
  }

  /** The steps a broadcast starts with. */
  lemma StartSteps(self: nat, m: nat)
    requires self <= m
    ensures Potential(Start(self, m), m).steps == (m + 1) * StepReach(4, m)
  {
    var w := Foreign(0, m);
    FanoutTotal(Envelope(self, 0), m);
    TotalNone([], DeliveryWeight(m));
    ForeignSteps(0, 4, m);
    TimesSteps(m, w);
    OneMoreTime(m, w.steps);
  }

  /** Of one PublishOut among m + 1 instances, whatever is forwarded, lost or reordered: the publishes,
      the deliveries and the length of the run are bounded. */
  lemma BroadcastIsBounded(self: nat, m: nat, steps: seq<Step>)
    requires self <= m && Schedule(Start(self, m), steps, m)
    ensures var s := After(Start(self, m), steps, m);
            && s.publishes <= Power(m, 0) + Power(m, 1) + Power(m, 2) + Power(m, 3) + Power(m, 4)
            && s.deliveries <= Power(m, 1) + Power(m, 2) + Power(m, 3) + Power(m, 4)
            && |steps| <= (m + 1) * StepReach(4, m)
  {
    StartPotential(self, m);
    StartSteps(self, m);
    RunUsesPotential(Start(self, m), steps, m);
  }

  // ---- the bounds are tight -----------------------------------------------

  lemma ConsRun(s: State, step: Step, rest: seq<Step>, m: nat)
    requires CanStep(s, step) && Schedule(Next(s, step, m), rest, m)
    ensures Schedule(s, [step] + rest, m) && After(s, [step] + rest, m) == After(Next(s, step, m), rest, m)
  {
    assert ([step] + rest)[1..] == rest;
  }

  /** A run that ends with nothing left to do and has fulfilled the whole potential. */
  ghost predicate RunsDry(s: State, steps: seq<Step>, m: nat) {
    && Schedule(s, steps, m)
    && var end := After(s, steps, m);
       && end.inbox == [] && end.delivered == []
       && end.publishes == Potential(s, m).publishes && end.deliveries == Potential(s, m).deliveries
  }

  lemma IdlePotential(s: State, m: nat)
    requires s.inbox == [] && s.delivered == []
    ensures Potential(s, m) == Weight(s.publishes, s.deliveries, 0)
  {
    TotalNone(s.inbox, ReceptionWeight(m));
    TotalNone(s.delivered, DeliveryWeight(m));
  }

  lemma IdleIsDry(s: State, steps: seq<Step>, m: nat)
    requires s.inbox == [] && s.delivered == [] && steps == []
    ensures RunsDry(s, steps, m)
  {
    IdlePotential(s, m);
  }

  lemma ConsDry(s: State, step: Step, rest: seq<Step>, m: nat)
    requires Members(s, m) && CanStep(s, step) && !step.Lose? && RunsDry(Next(s, step, m), rest, m)
    ensures RunsDry(s, [step] + rest, m)
  {
    StepUsesPotential(s, step, m);
    ConsRun(s, step, rest, m);
  }

  /** From any state there is a run that loses nothing and ends with nothing left to do. */
  lemma {:induction false} LosslessRun(s: State, m: nat) returns (steps: seq<Step>)
    requires Members(s, m)
    ensures RunsDry(s, steps, m)
    decreases Potential(s, m).steps
  {
    if s.inbox == [] && s.delivered == [] {
      steps := [];
      IdleIsDry(s, steps, m);
    } else {
      var step := if s.inbox != [] then Receive(0) else Forward(0);
      StepUsesPotential(s, step, m);
      var rest := LosslessRun(Next(s, step, m), m);
      steps := [step] + rest;
      ConsDry(s, step, rest, m);
    }
  }

  /** The bounds are met by some run, so neither can be lowered. */
  lemma BoundsAreReached(self: nat, m: nat) returns (steps: seq<Step>)
    requires self <= m
    ensures Schedule(Start(self, m), steps, m)
    ensures var s := After(Start(self, m), steps, m);
            && s.publishes == Power(m, 0) + Power(m, 1) + Power(m, 2) + Power(m, 3) + Power(m, 4)
            && s.deliveries == Power(m, 1) + Power(m, 2) + Power(m, 3) + Power(m, 4)
  {
    StartPotential(self, m);
    steps := LosslessRun(Start(self, m), m);
  }
}

/** Adding up what the relay's messages can still cause. */
module RelayWeights {

  datatype Weight = Weight(publishes: nat, deliveries: nat, steps: nat)

  const NOTHING := Weight(0, 0, 0)

  function Plus(v: Weight, w: Weight): Weight {
    Weight(v.publishes + w.publishes, v.deliveries + w.deliveries, v.steps + w.steps)
  }

  lemma PlusSwap(u: Weight, v: Weight, w: Weight)
    ensures Plus(Plus(u, v), w) == Plus(Plus(u, w), v)
  {
  }

  function Times(k: nat, w: Weight): Weight {
    if k == 0 then NOTHING else Plus(Times(k - 1, w), w)
  }

  function Drop<T>(xs: seq<T>, i: nat): seq<T>
    requires i < |xs|
  {
    xs[..i] + xs[i + 1..]
  }

  /** The weight of the first n elements. */
  function UpTo<T>(xs: seq<T>, n: nat, weight: T -> Weight): Weight
    requires n <= |xs|
  {
    if n == 0 then NOTHING else Plus(UpTo(xs, n - 1, weight), weight(xs[n - 1]))
  }

  function Total<T>(xs: seq<T>, weight: T -> Weight): Weight {
    UpTo(xs, |xs|, weight)
  }

  lemma {:induction false} UpToAgrees<T>(xs: seq<T>, ys: seq<T>, n: nat, weight: T -> Weight)
    requires n <= |xs| && n <= |ys| && forall i :: 0 <= i < n ==> xs[i] == ys[i]
    ensures UpTo(xs, n, weight) == UpTo(ys, n, weight)
  {
    if n > 0 {
      UpToAgrees(xs, ys, n - 1, weight);
    }
  }

  lemma TotalNone<T>(xs: seq<T>, weight: T -> Weight)
    requires xs == []
    ensures Total(xs, weight) == NOTHING
  {
  }

  lemma TotalPush<T>(xs: seq<T>, x: T, weight: T -> Weight)
    ensures Total(xs + [x], weight) == Plus(Total(xs, weight), weight(x))
  {
    UpToAgrees(xs + [x], xs, |xs|, weight);
  }

  lemma {:induction false} TotalConcat<T>(a: seq<T>, b: seq<T>, weight: T -> Weight)
    ensures Total(a + b, weight) == Plus(Total(a, weight), Total(b, weight))
    decreases |b|
  {
    if b == [] {
      assert a + b == a;
      TotalNone(b, weight);
    } else {
      var (front, x) := (b[..|b| - 1], b[|b| - 1]);
      TotalConcat(a, front, weight);
      TotalPush(a + front, x, weight);
      TotalPush(front, x, weight);
      assert (a + front) + [x] == a + b && front + [x] == b;
    }
  }

  lemma TotalAround<T>(front: seq<T>, x: T, mid: seq<T>, back: seq<T>, weight: T -> Weight)
    requires mid == front + [x]
    ensures Total(mid + back, weight) == Plus(Total(front + back, weight), weight(x))
  {
    TotalConcat(mid, back, weight);
    TotalConcat(front, back, weight);
    TotalPush(front, x, weight);
    PlusSwap(Total(front, weight), weight(x), Total(back, weight));
  }

  lemma SplitAt<T>(xs: seq<T>, i: nat) returns (parts: (seq<T>, T, seq<T>))
    requires i < |xs|
    ensures (parts.0 + [parts.1]) + parts.2 == xs && parts.0 + parts.2 == Drop(xs, i) && parts.1 == xs[i]
  {
    parts := (xs[..i], xs[i], xs[i + 1..]);
  }

  lemma TotalDrop<T>(xs: seq<T>, i: nat, weight: T -> Weight)
    requires i < |xs|
    ensures Total(xs, weight) == Plus(Total(Drop(xs, i), weight), weight(xs[i]))
  {
    var parts := SplitAt(xs, i);
    TotalAround(parts.0, parts.1, parts.0 + [parts.1], parts.2, weight);
  }

  lemma OneMoreTime(m: nat, n: nat)
    ensures (m + 1) * n == m * n + n
  {
  }

  lemma {:induction false} TimesSteps(k: nat, w: Weight)
    ensures Times(k, w).steps == k * w.steps
  {
    if k > 0 {
      TimesSteps(k - 1, w);
      OneMoreTime(k - 1, w.steps);
    }
  }

  lemma {:induction false} TimesIsProduct(k: nat, w: Weight)
    ensures Times(k, w).publishes == k * w.publishes
    ensures Times(k, w).deliveries == k * w.deliveries
  {
    if k > 0 {
      TimesIsProduct(k - 1, w);
    }
  }
}
