/** Selection depends on what was found, not on the order in which the providers were registered. */
module MatcherSelection {
  import opened Wrappers
  import opened Separator
  import opened Matcher

  // ---------------------------------------------------------------- points per key

  /** All points awarded under one key. */
  function Total(awards: seq<Award>, key: string): nat {
    if awards == [] then 0
    else Total(awards[..|awards| - 1], key)
         + (if AwardKey(awards[|awards| - 1]) == key then Points(awards[|awards| - 1].strength) else 0)
  }

  lemma {:induction false} TotalConcat(a: seq<Award>, b: seq<Award>, key: string)
    ensures Total(a + b, key) == Total(a, key) + Total(b, key)
  {
    if b == [] {
      assert a + b == a;
    } else {
      assert (a + b)[..|a + b| - 1] == a + b[..|b| - 1];
      TotalConcat(a, b[..|b| - 1], key);
    }
  }

  ghost predicate DistinctKeys(cs: seq<Candidate>) {
    forall i, j :: 0 <= i < j < |cs| ==> CandidateKey(cs[i]) != CandidateKey(cs[j])
  }

  predicate HasKey(cs: seq<Candidate>, key: string) {
    exists i :: 0 <= i < |cs| && CandidateKey(cs[i]) == key
  }

  /** The points `a` adds to candidate `c`. */
  function Bonus(c: Candidate, a: Award): nat {
    if CandidateKey(c) == AwardKey(a) then Points(a.strength) else 0
  }

  /** One award adds its points to the candidate of its key, or makes one. */
  lemma {:induction false} AddExact(cs: seq<Candidate>, a: Award)
    requires DistinctKeys(cs)
    ensures Added(cs, a, AddCandidate(cs, a))
  {
    if cs != [] {
      if CandidateKey(cs[0]) == AwardKey(a) {
        assert HasKey(cs, AwardKey(a));
        forall i | 1 <= i < |cs| ensures Bonus(cs[i], a) == 0 {
          assert CandidateKey(cs[i]) != CandidateKey(cs[0]);
        }
      } else {
        AddExact(cs[1..], a);
        AddedTail(cs, a);
        assert cs == [cs[0]] + cs[1..];
        AddedFront(cs[0], cs[1..], a, AddCandidate(cs[1..], a));
      }
    }
  }

  lemma AddedFront(c: Candidate, rest: seq<Candidate>, a: Award, r: seq<Candidate>)
    requires CandidateKey(c) != AwardKey(a) && Added(rest, a, r)
    requires HasKey([c] + rest, AwardKey(a)) <==> HasKey(rest, AwardKey(a))
    ensures Added([c] + rest, a, [c] + r)
  {
  }

  lemma AddedDistinct(cs: seq<Candidate>, a: Award, r: seq<Candidate>)
    requires DistinctKeys(cs) && Added(cs, a, r)
    ensures DistinctKeys(r)
  {
    forall i, j | 0 <= i < j < |r| ensures CandidateKey(r[i]) != CandidateKey(r[j]) {
      assert CandidateKey(r[i]) == CandidateKey(cs[i]);
      if j < |cs| {
        assert CandidateKey(r[j]) == CandidateKey(cs[j]);
      }
    }
  }

  lemma AddedTail(cs: seq<Candidate>, a: Award)
    requires cs != [] && CandidateKey(cs[0]) != AwardKey(a)
    ensures HasKey(cs, AwardKey(a)) <==> HasKey(cs[1..], AwardKey(a))
  {
    if HasKey(cs, AwardKey(a)) {
      var i :| 0 <= i < |cs| && CandidateKey(cs[i]) == AwardKey(a);
      assert CandidateKey(cs[1..][i - 1]) == AwardKey(a);
    }
    if HasKey(cs[1..], AwardKey(a)) {
      var i :| 0 <= i < |cs[1..]| && CandidateKey(cs[1..][i]) == AwardKey(a);
      assert CandidateKey(cs[i + 1]) == AwardKey(a);
    }
  }

  /** `r` is `cs` after one award. */
  ghost predicate Added(cs: seq<Candidate>, a: Award, r: seq<Candidate>) {
    && |cs| <= |r| <= |cs| + 1
    && (forall i :: 0 <= i < |cs| ==>
          r[i] == cs[i].(points := cs[i].points + Bonus(cs[i], a)))
    && (|r| == |cs| <==> HasKey(cs, AwardKey(a)))
    && (|r| == |cs| + 1 ==> r[|cs|] == Candidate(a.provider, a.profile, Points(a.strength)))
  }

  ghost predicate From(c: Candidate, a: Award) {
    a.provider == c.provider && a.profile == c.profile
  }

  /** Every candidate has all the points of its key. */
  ghost predicate Weighed(cs: seq<Candidate>, awards: seq<Award>) {
    forall i :: 0 <= i < |cs| ==> cs[i].points == Total(awards, CandidateKey(cs[i])) && cs[i].points > 0
  }

  ghost predicate Sourced(cs: seq<Candidate>, awards: seq<Award>) {
    forall i :: 0 <= i < |cs| ==> exists j :: 0 <= j < |awards| && From(cs[i], awards[j])
  }

  ghost predicate Complete(cs: seq<Candidate>, awards: seq<Award>) {
    forall k :: HasKey(cs, k) <==> Total(awards, k) > 0
  }

  /** The candidates hold exactly the awarded keys, once each, with all their points. */
  ghost predicate Tallied(cs: seq<Candidate>, awards: seq<Award>) {
    DistinctKeys(cs) && Weighed(cs, awards) && Sourced(cs, awards) && Complete(cs, awards)
  }

  lemma TotalNext(front: seq<Award>, a: Award, k: string)
    ensures Total(front + [a], k) == Total(front, k) + if AwardKey(a) == k then Points(a.strength) else 0
  {
    assert (front + [a])[..|front|] == front;
  }

  lemma HasKeyNext(cs: seq<Candidate>, a: Award, r: seq<Candidate>, k: string)
    requires Added(cs, a, r)
    ensures HasKey(r, k) <==> HasKey(cs, k) || k == AwardKey(a)
  {
    if HasKey(cs, k) {
      var i :| 0 <= i < |cs| && CandidateKey(cs[i]) == k;
      assert CandidateKey(r[i]) == k;
    } else if k == AwardKey(a) {
      assert CandidateKey(r[|cs|]) == k;
    }
    if HasKey(r, k) && k != AwardKey(a) {
      var i :| 0 <= i < |r| && CandidateKey(r[i]) == k;
      assert CandidateKey(cs[i]) == k;
    }
  }

  lemma WeighedNext(cs: seq<Candidate>, front: seq<Award>, a: Award, r: seq<Candidate>)
    requires Weighed(cs, front) && Complete(cs, front) && Added(cs, a, r)
    ensures Weighed(r, front + [a])
  {
    forall i | 0 <= i < |r| ensures r[i].points == Total(front + [a], CandidateKey(r[i])) && r[i].points > 0 {
      TotalNext(front, a, CandidateKey(r[i]));
      if i < |cs| {
        assert CandidateKey(r[i]) == CandidateKey(cs[i]);
      } else {
        assert !HasKey(cs, AwardKey(a));
      }
    }
  }

  lemma SourcedNext(cs: seq<Candidate>, front: seq<Award>, a: Award, r: seq<Candidate>)
    requires Sourced(cs, front) && Added(cs, a, r)
    ensures Sourced(r, front + [a])
  {
    var awards := front + [a];
    forall i | 0 <= i < |r| ensures exists j :: 0 <= j < |awards| && From(r[i], awards[j]) {
      if i < |cs| {
        var j :| 0 <= j < |front| && From(cs[i], front[j]);
        assert From(r[i], awards[j]);
      } else {
        assert From(r[i], awards[|front|]);
      }
    }
  }

  lemma {:induction false} TallyExact(awards: seq<Award>)
    ensures Tallied(AddAll([], awards), awards)
  {
    if awards != [] {
      var front, a := awards[..|awards| - 1], awards[|awards| - 1];
      TallyExact(front);
      var cs := AddAll([], front);
      var r := AddCandidate(cs, a);
      assert awards == front + [a];
      AddExact(cs, a);
      AddedDistinct(cs, a, r);
      WeighedNext(cs, front, a, r);
      SourcedNext(cs, front, a, r);
      forall k ensures HasKey(r, k) <==> Total(awards, k) > 0 {
        HasKeyNext(cs, a, r, k);
        TotalNext(front, a, k);
      }
    }
  }

  // ---------------------------------------------------------------- ranking

  predicate Descending(cs: seq<Candidate>) {
    forall i, j :: 0 <= i < j < |cs| ==> cs[i].points >= cs[j].points
  }

  /** A candidate in front that nothing in the rest outranks. */
  lemma DescendingFront(c: Candidate, rest: seq<Candidate>)
    requires Descending(rest) && forall j :: 0 <= j < |rest| ==> c.points >= rest[j].points
    ensures Descending([c] + rest)
  {
  }

  lemma {:induction false} InsertExact(c: Candidate, cs: seq<Candidate>)
    requires Descending(cs)
    ensures Descending(InsertRanked(c, cs)) && multiset(InsertRanked(c, cs)) == multiset{c} + multiset(cs)
  {
    if cs == [] || cs[0].points <= c.points {
      DescendingFront(c, cs);
    } else {
      var rest := InsertRanked(c, cs[1..]);
      assert cs == [cs[0]] + cs[1..];
      InsertExact(c, cs[1..]);
      forall j | 0 <= j < |rest| ensures cs[0].points >= rest[j].points {
        assert rest[j] in multiset(rest);
        if rest[j] != c {
          assert rest[j] in cs[1..];
        }
      }
      DescendingFront(cs[0], rest);
    }
  }

  lemma {:induction false} RankedExact(cs: seq<Candidate>)
    ensures Descending(Ranked(cs)) && multiset(Ranked(cs)) == multiset(cs)
  {
    if cs != [] {
      RankedExact(cs[1..]);
      InsertExact(cs[0], Ranked(cs[1..]));
      assert cs == [cs[0]] + cs[1..];
    }
  }

  /** What a decision says about the candidates. */
  ghost predicate Decides(cs: seq<Candidate>, d: Decision) {
    match d
    case NoCandidate => cs == []
    case Top(c) => c in cs && forall e :: e in cs && CandidateKey(e) != CandidateKey(c) ==> e.points < c.points
    case Tie(n) =>
      && (exists a, b :: a in cs && b in cs && CandidateKey(a) != CandidateKey(b) && a.points == n && b.points == n)
      && (forall e :: e in cs ==> e.points <= n)
  }

  lemma DecideExact(cs: seq<Candidate>)
    requires DistinctKeys(cs)
    ensures Decides(cs, Decide(cs))
  {
    var r := Ranked(cs);
    RankedExact(cs);
    if r != [] {
      forall e | e in cs ensures e.points <= r[0].points && (e != r[0] && |r| > 1 ==> e.points <= r[1].points) {
        assert e in multiset(r);
        var i :| 0 <= i < |r| && r[i] == e;
      }
      assert r[0] in multiset(cs);
      if |r| > 1 {
        SecondDiffers(cs, r);
      }
    }
  }

  lemma SecondDiffers(cs: seq<Candidate>, r: seq<Candidate>)
    requires DistinctKeys(cs) && multiset(r) == multiset(cs) && |r| > 1
    ensures r[0] in cs && r[1] in cs && CandidateKey(r[0]) != CandidateKey(r[1])
    ensures forall e :: e in cs && CandidateKey(e) == CandidateKey(r[0]) ==> e == r[0]
  {
    assert r[0] in multiset(cs) && r[1] in multiset(cs);
    if r[0] == r[1] {
      assert r == [r[0], r[1]] + r[2..];
      assert multiset(r)[r[0]] >= 2;
      OnceEach(cs, r[0]);
    }
  }

  lemma {:induction false} OnceEach(cs: seq<Candidate>, c: Candidate)
    requires DistinctKeys(cs)
    ensures multiset(cs)[c] <= 1
  {
    if cs != [] {
      assert cs == [cs[0]] + cs[1..];
      OnceEach(cs[1..], c);
      if cs[0] == c {
        assert c !in cs[1..];
      }
    }
  }

  // ---------------------------------------------------------------- what a provider's evidence is worth

  function Count(profiles: seq<string>, q: string): nat {
    if profiles == [] then 0 else Count(profiles[..|profiles| - 1], q) + (if profiles[|profiles| - 1] == q then 1 else 0)
  }

  function PassiveWorth(ms: seq<PassiveMatcher>, q: string, request: Request): nat {
    if ms == [] then 0
    else
      var m := ms[|ms| - 1];
      PassiveWorth(ms[..|ms| - 1], q, request)
      + (if PassiveSignal(m, request).Match? then Count(m.profiles, q) * Points(m.strength) else 0)
  }

  function ProbeWorth(probes: seq<Probe>, q: string, request: Request): nat {
    if probes == [] then 0
    else
      var r := probes[|probes| - 1].run(request);
      ProbeWorth(probes[..|probes| - 1], q, request) + (if r.signal.Match? then Count(r.profiles, q) * Points(r.strength) else 0)
  }

  /** The points a profile of a provider earns before authentication. It mentions no other provider. */
  function Worth(p: Provider, q: string, request: Request): nat {
    PassiveWorth(p.matchers, q, request) + ProbeWorth(p.probes, q, request)
  }

  /** Neither id, with the separator behind it, begins the other. Ids without the separator are apart as soon as they differ. */
  predicate Apart(a: string, b: string) {
    !(a + [NUL] <= b + [NUL]) && !(b + [NUL] <= a + [NUL])
  }

  /** Any two registered ids are apart. */
  ghost predicate WellNamed(ps: seq<Provider>) {
    forall i, j :: 0 <= i < j < |ps| ==> Apart(ps[i].id, ps[j].id)
  }

  lemma Nested(a: string, q: string, b: string, q': string)
    ensures a + q == b + q' ==> a <= b || b <= a
  {
    var k := a + q;
    assert k[..|a|] == a;
    if k == b + q' {
      assert k[..|b|] == b;
    }
  }

  /** Two ids are apart exactly when no profile of the one can share its key with a profile of the other. */
  lemma ApartExact(p: Provider, p': Provider)
    ensures Apart(p.id, p'.id) <==> forall q, q' :: KeyOf(p, q) != KeyOf(p', q')
  {
    var a, b := p.id + [NUL], p'.id + [NUL];
    if Apart(p.id, p'.id) {
      forall q, q' ensures KeyOf(p, q) != KeyOf(p', q') {
        Nested(a, q, b, q');
      }
    } else if a <= b {
      assert b == a + b[|a|..];
      assert KeyOf(p, b[|a|..]) == KeyOf(p', "");
    } else {
      assert a == b + a[|b|..];
      assert KeyOf(p', a[|b|..]) == KeyOf(p, "");
    }
  }

  /** Distinct ids without the separator are apart. */
  lemma NulFreeApart(a: string, b: string)
    requires NulFree(a) && NulFree(b)
    ensures Apart(a, b) <==> a != b
  {
    var x, y := a + [NUL], b + [NUL];
    if x <= y {
      assert y == a + [NUL] + y[|x|..];
      FirstNul(a, b, y[|x|..], "");
    } else if y <= x {
      assert x == b + [NUL] + x[|y|..];
      FirstNul(b, a, x[|y|..], "");
    }
  }

  lemma KeysApart(p: Provider, q: string, p': Provider, q': string)
    requires p.id == p'.id || Apart(p.id, p'.id)
    ensures KeyOf(p, q) == KeyOf(p', q') <==> p.id == p'.id && q == q'
  {
    ApartExact(p, p');
    if KeyOf(p, q) == KeyOf(p', q') {
      assert q == KeyOf(p, q)[|p.id| + 1..] && q' == KeyOf(p', q')[|p'.id| + 1..];
    }
  }

  lemma {:induction false} AwardsToTotal(p: Provider, profiles: seq<string>, s: Strength, p': Provider, q: string)
    requires p.id == p'.id || Apart(p.id, p'.id)
    ensures Total(AwardsTo(p, profiles, s), KeyOf(p', q)) == if p.id == p'.id then Count(profiles, q) * Points(s) else 0
  {
    if profiles != [] {
      var front, last := profiles[..|profiles| - 1], profiles[|profiles| - 1];
      AwardsToTotal(p, front, s, p', q);
      assert AwardsTo(p, profiles, s)[..|profiles| - 1] == AwardsTo(p, front, s);
      KeysApart(p, last, p', q);
    }
  }

  lemma {:induction false} PassiveTotal(g: Progress, p: Provider, ms: seq<PassiveMatcher>, request: Request, p': Provider, q: string)
    requires p.id == p'.id || Apart(p.id, p'.id)
    ensures Total(PassiveOf(g, p, ms, request).awards, KeyOf(p', q))
         == Total(g.awards, KeyOf(p', q)) + if p.id == p'.id then PassiveWorth(ms, q, request) else 0
  {
    if ms != [] {
      var front, m := ms[..|ms| - 1], ms[|ms| - 1];
      PassiveTotal(g, p, front, request, p', q);
      TotalConcat(PassiveOf(g, p, front, request).awards, AwardsTo(p, m.profiles, m.strength), KeyOf(p', q));
      AwardsToTotal(p, m.profiles, m.strength, p', q);
    }
  }

  lemma {:induction false} ProbeTotal(g: Progress, p: Provider, probes: seq<Probe>, request: Request, p': Provider, q: string)
    requires p.id == p'.id || Apart(p.id, p'.id)
    ensures Total(ProbeOf(g, p, probes, request).awards, KeyOf(p', q))
         == Total(g.awards, KeyOf(p', q)) + if p.id == p'.id then ProbeWorth(probes, q, request) else 0
  {
    if probes != [] {
      var front, probe := probes[..|probes| - 1], probes[|probes| - 1];
      var r := probe.run(request);
      ProbeTotal(g, p, front, request, p', q);
      TotalConcat(ProbeOf(g, p, front, request).awards, AwardsTo(p, r.profiles, r.strength), KeyOf(p', q));
      AwardsToTotal(p, r.profiles, r.strength, p', q);
    }
  }

  ghost predicate Named(ps: seq<Provider>, id: string) {
    exists i :: 0 <= i < |ps| && ps[i].id == id
  }

  lemma NamedNext(ps: seq<Provider>, id: string)
    requires ps != [] && WellNamed(ps)
    ensures WellNamed(ps[..|ps| - 1])
    ensures Named(ps, id) <==> Named(ps[..|ps| - 1], id) || ps[|ps| - 1].id == id
    ensures Named(ps[..|ps| - 1], id) ==> ps[|ps| - 1].id != id
  {
    var front := ps[..|ps| - 1];
    if Named(front, id) {
      var i :| 0 <= i < |front| && front[i].id == id;
      assert ps[i].id == id;
    }
    if ps[|ps| - 1].id == id {
      assert Named(ps, id);
    } else if Named(ps, id) {
      var i :| 0 <= i < |ps| && ps[i].id == id;
      assert front[i].id == id;
    }
  }

  lemma {:induction false} PassiveAllTotal(g: Progress, ps: seq<Provider>, request: Request, p: Provider, q: string)
    requires WellNamed(ps) && forall i :: 0 <= i < |ps| ==> ps[i] == p || Apart(ps[i].id, p.id)
    ensures Total(PassiveAll(g, ps, request).awards, KeyOf(p, q))
         == Total(g.awards, KeyOf(p, q)) + if Named(ps, p.id) then PassiveWorth(p.matchers, q, request) else 0
  {
    if ps != [] {
      var front, last := ps[..|ps| - 1], ps[|ps| - 1];
      NamedNext(ps, p.id);
      PassiveAllTotal(g, front, request, p, q);
      PassiveTotal(PassiveAll(g, front, request), last, last.matchers, request, p, q);
    }
  }

  lemma {:induction false} ProbeAllTotal(g: Progress, ps: seq<Provider>, request: Request, p: Provider, q: string)
    requires WellNamed(ps) && forall i :: 0 <= i < |ps| ==> ps[i] == p || Apart(ps[i].id, p.id)
    ensures Total(ProbeAll(g, ps, request).awards, KeyOf(p, q))
         == Total(g.awards, KeyOf(p, q)) + if Named(ps, p.id) then ProbeWorth(p.probes, q, request) else 0
  {
    if ps != [] {
      var front, last := ps[..|ps| - 1], ps[|ps| - 1];
      NamedNext(ps, p.id);
      ProbeAllTotal(g, front, request, p, q);
      ProbeTotal(ProbeAll(g, front, request), last, last.probes, request, p, q);
    }
  }

  lemma {:induction false} EligibleExact(ps: seq<Provider>, request: Request)
    ensures forall p :: p in EligibleOf(ps, request) <==> p in ps && Eligible(p, request)
    ensures WellNamed(ps) ==> WellNamed(EligibleOf(ps, request))
  {
    if ps != [] {
      var front, last := ps[..|ps| - 1], ps[|ps| - 1];
      EligibleExact(front, request);
      assert ps == front + [last];
      if WellNamed(ps) {
        NamedNext(ps, last.id);
        var el := EligibleOf(front, request);
        forall i | 0 <= i < |el| ensures Apart(el[i].id, last.id) {
          assert el[i] in front;
          var j :| 0 <= j < |front| && front[j] == el[i];
          assert Apart(ps[j].id, ps[|ps| - 1].id);
        }
      }
    }
  }

  /** What all the evidence gathered awards to a profile of a registered provider. */
  lemma GatheredTotal(ps: seq<Provider>, request: Request, p: Provider, q: string)
    requires WellNamed(ps) && p in ps
    ensures Total(Gathered(ps, request).awards, KeyOf(p, q)) == if Eligible(p, request) then Worth(p, q, request) else 0
  {
    var el := EligibleOf(ps, request);
    EligibleExact(ps, request);
    SameName(ps, p);
    forall i | 0 <= i < |el| ensures el[i] == p || Apart(el[i].id, p.id) {
      assert el[i] in ps;
    }
    assert Named(el, p.id) <==> p in el by {
      if Named(el, p.id) {
        var i :| 0 <= i < |el| && el[i].id == p.id;
        assert el[i] in el;
      }
    }
    var g := Progress(TransportAll(ps, request), [], []);
    PassiveAllTotal(g, el, request, p, q);
    ProbeAllTotal(PassiveAll(g, el, request), el, request, p, q);
  }

  lemma SameName(ps: seq<Provider>, p: Provider)
    requires WellNamed(ps) && p in ps
    ensures forall r :: r in ps && r.id == p.id ==> r == p
    ensures forall r :: r in ps ==> r == p || Apart(r.id, p.id)
  {
    var i :| 0 <= i < |ps| && ps[i] == p;
    forall r | r in ps ensures r == p || Apart(r.id, p.id) {
      var j :| 0 <= j < |ps| && ps[j] == r;
    }
  }

  // ---------------------------------------------------------------- where awards come from

  ghost predicate AllFrom(awards: seq<Award>, ps: seq<Provider>) {
    forall i :: 0 <= i < |awards| ==> awards[i].provider in ps
  }

  lemma {:induction false} PassiveFrom(g: Progress, p: Provider, ms: seq<PassiveMatcher>, request: Request, ps: seq<Provider>)
    requires AllFrom(g.awards, ps) && p in ps
    ensures AllFrom(PassiveOf(g, p, ms, request).awards, ps)
  {
    if ms != [] {
      PassiveFrom(g, p, ms[..|ms| - 1], request, ps);
    }
  }

  lemma {:induction false} ProbeFrom(g: Progress, p: Provider, probes: seq<Probe>, request: Request, ps: seq<Provider>)
    requires AllFrom(g.awards, ps) && p in ps
    ensures AllFrom(ProbeOf(g, p, probes, request).awards, ps)
  {
    if probes != [] {
      ProbeFrom(g, p, probes[..|probes| - 1], request, ps);
    }
  }

  lemma {:induction false} AllAwardsFrom(g: Progress, some: seq<Provider>, request: Request, ps: seq<Provider>)
    requires AllFrom(g.awards, ps) && forall p :: p in some ==> p in ps
    ensures AllFrom(PassiveAll(g, some, request).awards, ps) && AllFrom(ProbeAll(g, some, request).awards, ps)
  {
    if some != [] {
      var front, last := some[..|some| - 1], some[|some| - 1];
      AllAwardsFrom(g, front, request, ps);
      PassiveFrom(PassiveAll(g, front, request), last, last.matchers, request, ps);
      ProbeFrom(ProbeAll(g, front, request), last, last.probes, request, ps);
    }
  }

  lemma GatheredFrom(ps: seq<Provider>, request: Request)
    ensures AllFrom(Gathered(ps, request).awards, EligibleOf(ps, request))
  {
    var el := EligibleOf(ps, request);
    var g := Progress(TransportAll(ps, request), [], []);
    AllAwardsFrom(g, el, request, el);
    AllAwardsFrom(PassiveAll(g, el, request), el, request, el);
  }

  // ---------------------------------------------------------------- the decision, without order

  /** An eligible registered provider. */
  ghost predicate Runs(ps: seq<Provider>, request: Request, p: Provider) {
    p in ps && request.transport in p.transports
  }

  /** The decision read off the set of providers alone. */
  ghost predicate Declares(ps: seq<Provider>, request: Request, d: Decision) {
    match d
    case NoCandidate => forall p, q :: Runs(ps, request, p) ==> Worth(p, q, request) == 0
    case Top(c) =>
      && Runs(ps, request, c.provider) && c.points == Worth(c.provider, c.profile, request) && c.points > 0
      && forall p, q :: Runs(ps, request, p) && !(p.id == c.provider.id && q == c.profile) ==> Worth(p, q, request) < c.points
    case Tie(n) =>
      && n > 0
      && (forall p, q :: Runs(ps, request, p) ==> Worth(p, q, request) <= n)
      && (exists p, q, p', q' :: Runs(ps, request, p) && Runs(ps, request, p') && !(p.id == p'.id && q == q')
                                 && Worth(p, q, request) == n && Worth(p', q', request) == n)
  }

  /** Candidates are the profiles of eligible providers that earned anything, at their worth. */
  ghost predicate Worthy(ps: seq<Provider>, request: Request, cs: seq<Candidate>) {
    && (forall c :: c in cs ==> Runs(ps, request, c.provider) && c.points == Worth(c.provider, c.profile, request) && c.points > 0)
    && (forall p, q :: Runs(ps, request, p) && Worth(p, q, request) > 0 ==> exists c :: c in cs && c.provider == p && c.profile == q)
  }

  lemma CandidatesExact(ps: seq<Provider>, request: Request)
    requires WellNamed(ps)
    ensures var cs := AddAll([], Gathered(ps, request).awards); DistinctKeys(cs) && Worthy(ps, request, cs)
  {
    var awards := Gathered(ps, request).awards;
    var cs := AddAll([], awards);
    TallyExact(awards);
    GatheredFrom(ps, request);
    EligibleExact(ps, request);
    forall c | c in cs ensures Runs(ps, request, c.provider) && c.points == Worth(c.provider, c.profile, request) && c.points > 0 {
      var i :| 0 <= i < |cs| && cs[i] == c;
      var j :| 0 <= j < |awards| && From(cs[i], awards[j]);
      assert awards[j].provider in EligibleOf(ps, request);
      GatheredTotal(ps, request, c.provider, c.profile);
    }
    forall p, q | Runs(ps, request, p) && Worth(p, q, request) > 0 ensures exists c :: c in cs && c.provider == p && c.profile == q {
      GatheredTotal(ps, request, p, q);
      assert HasKey(cs, KeyOf(p, q));
      var i :| 0 <= i < |cs| && CandidateKey(cs[i]) == KeyOf(p, q);
      assert cs[i] in cs;
      SameName(ps, p);
      SameName(ps, cs[i].provider);
      KeysApart(p, q, cs[i].provider, cs[i].profile);
    }
  }

  lemma CandidateKeysApart(ps: seq<Provider>, request: Request, a: Candidate, b: Candidate)
    requires WellNamed(ps) && Runs(ps, request, a.provider) && Runs(ps, request, b.provider)
    ensures CandidateKey(a) == CandidateKey(b) <==> a.provider.id == b.provider.id && a.profile == b.profile
  {
    SameName(ps, a.provider);
    SameName(ps, b.provider);
    KeysApart(a.provider, a.profile, b.provider, b.profile);
  }

  /**
   The decision in the providers' own terms: nobody earned a point; or one profile of one provider
   strictly outranks every other; or the most points are shared.
   */
  lemma DecisionExact(ps: seq<Provider>, request: Request)
    requires WellNamed(ps)
    ensures Declares(ps, request, DecisionOf(ps, request))
  {
    var cs := AddAll([], Gathered(ps, request).awards);
    CandidatesExact(ps, request);
    DecideExact(cs);
    DecisionFor(ps, request, cs, Decide(cs));
  }

  /** Candidates have one key exactly when they are one profile of one provider. */
  ghost predicate KeyedApart(cs: seq<Candidate>) {
    forall a, b :: a in cs && b in cs ==>
      (CandidateKey(a) == CandidateKey(b) <==> a.provider.id == b.provider.id && a.profile == b.profile)
  }

  lemma DecisionFor(ps: seq<Provider>, request: Request, cs: seq<Candidate>, d: Decision)
    requires WellNamed(ps) && Worthy(ps, request, cs) && Decides(cs, d)
    ensures Declares(ps, request, d)
  {
    forall a, b | a in cs && b in cs
      ensures CandidateKey(a) == CandidateKey(b) <==> a.provider.id == b.provider.id && a.profile == b.profile
    {
      CandidateKeysApart(ps, request, a, b);
    }
    match d {
      case NoCandidate =>
      case Top(c) => TopFor(ps, request, cs, c);
      case Tie(n) => TieFor(ps, request, cs, n);
    }
  }

  lemma TopFor(ps: seq<Provider>, request: Request, cs: seq<Candidate>, c: Candidate)
    requires Worthy(ps, request, cs) && Decides(cs, Top(c)) && KeyedApart(cs)
    ensures Declares(ps, request, Top(c))
  {
    forall p, q | Runs(ps, request, p) && !(p.id == c.provider.id && q == c.profile) ensures Worth(p, q, request) < c.points {
      if Worth(p, q, request) > 0 {
        var e :| e in cs && e.provider == p && e.profile == q;
        assert CandidateKey(e) != CandidateKey(c);
      }
    }
  }

  lemma TieFor(ps: seq<Provider>, request: Request, cs: seq<Candidate>, n: nat)
    requires Worthy(ps, request, cs) && Decides(cs, Tie(n)) && KeyedApart(cs)
    ensures Declares(ps, request, Tie(n))
  {
    var a, b :| a in cs && b in cs && CandidateKey(a) != CandidateKey(b) && a.points == n && b.points == n;
    assert Worth(a.provider, a.profile, request) == n && Worth(b.provider, b.profile, request) == n;
    forall p, q | Runs(ps, request, p) ensures Worth(p, q, request) <= n {
      if Worth(p, q, request) > 0 {
        var e :| e in cs && e.provider == p && e.profile == q;
      }
    }
  }

  /** Only one decision can be read off a set of providers. */
  lemma DecisionUnique(ps: seq<Provider>, qs: seq<Provider>, request: Request, d: Decision, e: Decision)
    requires WellNamed(ps) && forall p :: p in ps <==> p in qs
    requires Declares(ps, request, d) && Declares(qs, request, e)
    ensures d == e
  {
    forall p ensures Runs(ps, request, p) <==> Runs(qs, request, p) {
    }
    match d {
      case NoCandidate =>
      case Top(c) =>
        match e {
          case Top(c') =>
            SameName(ps, c.provider);
          case _ =>
        }
      case Tie(n) =>
        var p, q, p', q' :| Runs(ps, request, p) && Runs(ps, request, p') && !(p.id == p'.id && q == q')
                            && Worth(p, q, request) == n && Worth(p', q', request) == n;
        assert Runs(qs, request, p) && Runs(qs, request, p');
    }
  }

  // ---------------------------------------------------------------- order independence

  /** Alike in everything but the evidence trail. */
  predicate SameChoice(a: MatchResult, b: MatchResult) {
    && a.status == b.status && a.provider == b.provider && a.profile == b.profile
    && a.score == b.score && a.confidence == b.confidence && a.writable == b.writable
  }

  lemma {:induction false} ReadingsIgnoreTrail(g: Closer, h: Closer, p: Provider, q: string, readers: seq<CapabilityReader>, request: Request)
    requires g.points == h.points
    ensures ReadAll(g, p, q, readers, request).points == ReadAll(h, p, q, readers, request).points
  {
    if readers != [] {
      ReadingsIgnoreTrail(g, h, p, q, readers[..|readers| - 1], request);
    }
  }

  lemma SelectIgnoresTrail(g: Closer, h: Closer, c: Candidate, request: Request)
    requires g.points == h.points
    ensures SameChoice(Select(g, c, request), Select(h, c, request))
  {
    ReadingsIgnoreTrail(g, h, c.provider, c.profile, c.provider.readers, request);
  }

  lemma ConclusionIgnoresTrail(d: Decision, e: seq<Evidence>, f: seq<Evidence>, e': seq<Evidence>, f': seq<Evidence>, request: Request)
    ensures SameChoice(Conclude(d, e, f, request), Conclude(d, e', f', request))
  {
    if d.Top? {
      var c := d.candidate;
      var g, h := Closer(e, f, c.points), Closer(e', f', c.points);
      if c.provider.auth.None? {
        SelectIgnoresTrail(g, h, c, request);
      } else {
        var auth := c.provider.auth.value;
        SelectIgnoresTrail(Authenticate(g, c, auth, request).progress, Authenticate(h, c, auth, request).progress, c, request);
      }
    }
  }

  /** Registering the same providers in any other order leads to the same choice. */
  lemma OrderIndependence(ps: seq<Provider>, qs: seq<Provider>, request: Request)
    requires WellNamed(ps) && multiset(ps) == multiset(qs)
    ensures SameChoice(Evaluate(ps, request), Evaluate(qs, request))
  {
    PermutedNames(ps, qs);
    DecisionExact(ps, request);
    DecisionExact(qs, request);
    DecisionUnique(ps, qs, request, DecisionOf(ps, request), DecisionOf(qs, request));
    var g, h := Gathered(ps, request), Gathered(qs, request);
    ConclusionIgnoresTrail(DecisionOf(ps, request), g.evidence, g.conflicts, h.evidence, h.conflicts, request);
  }

  lemma PermutedNames(ps: seq<Provider>, qs: seq<Provider>)
    requires WellNamed(ps) && multiset(ps) == multiset(qs)
    ensures WellNamed(qs) && forall p :: p in ps <==> p in qs
  {
    assert forall p :: p in ps <==> p in multiset(ps);
    assert forall p :: p in qs <==> p in multiset(qs);
    forall i, j | 0 <= i < j < |qs| ensures Apart(qs[i].id, qs[j].id) {
      assert qs[i] in ps && qs[j] in ps;
      SameName(ps, qs[j]);
      if qs[i] == qs[j] {
        Twice(qs, i, j);
        OnlyOnce(ps, qs[i]);
      }
    }
  }

  lemma Twice(ps: seq<Provider>, i: nat, j: nat)
    requires i < j < |ps| && ps[i] == ps[j]
    ensures multiset(ps)[ps[i]] >= 2
  {
    assert ps == ps[..j] + ps[j..];
    assert ps[i] in ps[..j] && ps[j] in ps[j..];
  }

  lemma {:induction false} OnlyOnce(ps: seq<Provider>, p: Provider)
    requires WellNamed(ps)
    ensures multiset(ps)[p] <= 1
  {
    if ps != [] {
      var front, last := ps[..|ps| - 1], ps[|ps| - 1];
      assert ps == front + [last];
      NamedNext(ps, last.id);
      OnlyOnce(front, p);
      assert last in front ==> Named(front, last.id);
    }
  }

  // ---------------------------------------------------------------- what it takes to be selected

  function ReaderWorth(p: Provider, q: string, readers: seq<CapabilityReader>, request: Request): nat {
    if readers == [] then 0
    else
      var r := readers[|readers| - 1].read(request, q);
      ReaderWorth(p, q, readers[..|readers| - 1], request) + (if r.signal.Match? then Points(r.strength) else 0)
  }

  lemma {:induction false} ReadAllPoints(g: Closer, p: Provider, q: string, readers: seq<CapabilityReader>, request: Request)
    ensures ReadAll(g, p, q, readers, request).points == g.points + ReaderWorth(p, q, readers, request)
  {
    if readers != [] {
      ReadAllPoints(g, p, q, readers[..|readers| - 1], request);
    }
  }

  /** Authentication, where the provider has one, confirmed this very profile. */
  predicate Confirmed(p: Provider, q: string, request: Request) {
    p.auth.Some? ==>
      p.auth.value.authenticate(request, [q]).Matched? && p.auth.value.authenticate(request, [q]).profile == q
  }

  function FinalPoints(p: Provider, q: string, request: Request): nat {
    Worth(p, q, request) + (if p.auth.Some? then 3 else 0) + ReaderWorth(p, q, p.readers, request)
  }

  /** Strictly ahead of every other profile before authentication, confirmed, and worth at least three points. */
  ghost predicate Chosen(ps: seq<Provider>, request: Request, p: Provider, q: string) {
    && Runs(ps, request, p) && Worth(p, q, request) > 0
    && (forall p', q' :: Runs(ps, request, p') && !(p'.id == p.id && q' == q) ==> Worth(p', q', request) < Worth(p, q, request))
    && Confirmed(p, q, request) && FinalPoints(p, q, request) >= 3
  }

  lemma TopSelected(ps: seq<Provider>, request: Request, c: Candidate)
    requires Declares(ps, request, Top(c)) && DecisionOf(ps, request) == Top(c)
    ensures Evaluate(ps, request).status.StatusSelected? <==> Chosen(ps, request, c.provider, c.profile)
    ensures Evaluate(ps, request).status.StatusSelected? ==>
              Evaluate(ps, request).provider == Some(c.provider.id) && Evaluate(ps, request).profile == Some(c.profile)
  {
    var g := Gathered(ps, request);
    var closer := Closer(g.evidence, g.conflicts, c.points);
    var ready := if c.provider.auth.None? then closer else Authenticate(closer, c, c.provider.auth.value, request).progress;
    ReadAllPoints(ready, c.provider, c.profile, c.provider.readers, request);
  }

  /** `selected` means exactly that, of the provider and profile that are named in the result. */
  lemma SelectedExact(ps: seq<Provider>, request: Request, p: Provider, q: string)
    requires WellNamed(ps) && p in ps
    ensures Evaluate(ps, request).status.StatusSelected?
            && Evaluate(ps, request).provider == Some(p.id) && Evaluate(ps, request).profile == Some(q)
       <==> Chosen(ps, request, p, q)
  {
    DecisionExact(ps, request);
    var d := DecisionOf(ps, request);
    if d.Top? {
      TopSelected(ps, request, d.candidate);
      SameName(ps, p);
      SameName(ps, d.candidate.provider);
    }
  }

  /** Nobody's evidence is worth a point. */
  ghost predicate NothingFound(ps: seq<Provider>, request: Request) {
    forall p, q :: Runs(ps, request, p) ==> Worth(p, q, request) == 0
  }

  lemma UnselectedShape(d: Decision, e: seq<Evidence>, f: seq<Evidence>, request: Request)
    ensures var r := Conclude(d, e, f, request);
            && (r.status.StatusUnsupported? <==> d.NoCandidate?)
            && (!r.status.StatusSelected? ==> r.provider.None? && r.profile.None? && !r.writable)
            && r.generation == request.generation && r.modem == request.modem
  {
  }

  /**
   `unsupported` means that nobody earned a point, and everything that is neither that nor selected is
   `ambiguous`; only a selected result names a provider or may be writable.
   */
  lemma StatusExact(ps: seq<Provider>, request: Request)
    requires WellNamed(ps)
    ensures var r := Evaluate(ps, request);
            && (r.status.StatusUnsupported? <==> NothingFound(ps, request))
            && (r.status.StatusSelected? <==> exists p, q :: Chosen(ps, request, p, q))
            && (!r.status.StatusSelected? ==> r.provider.None? && r.profile.None? && !r.writable)
  {
    var d, g := DecisionOf(ps, request), Gathered(ps, request);
    DecisionExact(ps, request);
    UnselectedShape(d, g.evidence, g.conflicts, request);
    if d.Top? {
      TopSelected(ps, request, d.candidate);
    }
    if p, q :| Chosen(ps, request, p, q) {
      SelectedExact(ps, request, p, q);
    }
  }

  lemma SelectedShape(g: Closer, c: Candidate, request: Request)
    requires Select(g, c, request).status.StatusSelected?
    ensures var r := Select(g, c, request);
            && r.confidence == 3 && r.score.Supported? && (r.writable <==> c.provider.access(c.profile).ReadWrite?)
  {
  }

  /** A selected result is fully confident, and writable exactly when the provider says so of that profile. */
  lemma SelectedIsConfident(ps: seq<Provider>, request: Request, p: Provider, q: string)
    requires WellNamed(ps) && Chosen(ps, request, p, q)
    ensures var r := Evaluate(ps, request);
            r.confidence == 3 && r.score.Supported? && (r.writable <==> p.access(q).ReadWrite?)
  {
    SelectedExact(ps, request, p, q);
    DecisionExact(ps, request);
    var c, g := DecisionOf(ps, request).candidate, Gathered(ps, request);
    var closer := Closer(g.evidence, g.conflicts, c.points);
    SameName(ps, p);
    TopSelected(ps, request, c);
    if c.provider.auth.None? {
      SelectedShape(closer, c, request);
    } else {
      SelectedShape(Authenticate(closer, c, c.provider.auth.value, request).progress, c, request);
    }
  }

  // ---------------------------------------------------------------- what a point is

  /** The request carries a fact of the kind the matcher looks at, with a value it expects. */
  predicate Proves(m: PassiveMatcher, request: Request) {
    exists i :: 0 <= i < |request.facts| && request.facts[i].kind == m.fact && request.facts[i].value in m.expected
  }

  /** A fact of that kind is there, but none with an expected value. */
  predicate Disproves(m: PassiveMatcher, request: Request) {
    && (exists i :: 0 <= i < |request.facts| && request.facts[i].kind == m.fact)
    && forall i :: 0 <= i < |request.facts| && request.facts[i].kind == m.fact ==> request.facts[i].value !in m.expected
  }

  lemma SignalExact(m: PassiveMatcher, request: Request)
    ensures PassiveSignal(m, request).Match? <==> Proves(m, request)
    ensures PassiveSignal(m, request).Mismatch? <==> Disproves(m, request)
  {
  }

  /** How often passive facts of strength `s` speak for profile `q`. */
  function PassiveTimes(ms: seq<PassiveMatcher>, q: string, request: Request, s: Strength): nat {
    if ms == [] then 0
    else
      var m := ms[|ms| - 1];
      PassiveTimes(ms[..|ms| - 1], q, request, s)
      + (if m.strength == s && Proves(m, request) then Count(m.profiles, q) else 0)
  }

  /** How often probes speak for it with strength `s`. */
  function ProbeTimes(probes: seq<Probe>, q: string, request: Request, s: Strength): nat {
    if probes == [] then 0
    else
      var r := probes[|probes| - 1].run(request);
      ProbeTimes(probes[..|probes| - 1], q, request, s)
      + (if r.strength == s && r.signal.Match? then Count(r.profiles, q) else 0)
  }

  /** How many of the capabilities read speak for it with strength `s`. */
  function ReaderTimes(q: string, readers: seq<CapabilityReader>, request: Request, s: Strength): nat {
    if readers == [] then 0
    else
      var r := readers[|readers| - 1].read(request, q);
      ReaderTimes(q, readers[..|readers| - 1], request, s) + (if r.strength == s && r.signal.Match? then 1 else 0)
  }

  lemma {:induction false} PassiveCounts(ms: seq<PassiveMatcher>, q: string, request: Request)
    ensures PassiveWorth(ms, q, request)
         == PassiveTimes(ms, q, request, Weak) + 2 * PassiveTimes(ms, q, request, Moderate) + 3 * PassiveTimes(ms, q, request, Strong)
  {
    if ms != [] {
      PassiveCounts(ms[..|ms| - 1], q, request);
      SignalExact(ms[|ms| - 1], request);
    }
  }

  lemma {:induction false} ProbeCounts(probes: seq<Probe>, q: string, request: Request)
    ensures ProbeWorth(probes, q, request)
         == ProbeTimes(probes, q, request, Weak) + 2 * ProbeTimes(probes, q, request, Moderate) + 3 * ProbeTimes(probes, q, request, Strong)
  {
    if probes != [] {
      ProbeCounts(probes[..|probes| - 1], q, request);
    }
  }

  lemma {:induction false} ReaderCounts(p: Provider, q: string, readers: seq<CapabilityReader>, request: Request)
    ensures ReaderWorth(p, q, readers, request)
         == ReaderTimes(q, readers, request, Weak) + 2 * ReaderTimes(q, readers, request, Moderate)
            + 3 * ReaderTimes(q, readers, request, Strong)
  {
    if readers != [] {
      ReaderCounts(p, q, readers[..|readers| - 1], request);
    }
  }

  function Times(p: Provider, q: string, request: Request, s: Strength): nat {
    PassiveTimes(p.matchers, q, request, s) + ProbeTimes(p.probes, q, request, s)
  }

  /**
   A profile is worth one point for every weak piece of evidence that speaks for it, two for every moderate and
   three for every strong one; a confirmed authentication counts as strong.
   */
  lemma PointsExact(p: Provider, q: string, request: Request)
    ensures Worth(p, q, request) == Times(p, q, request, Weak) + 2 * Times(p, q, request, Moderate) + 3 * Times(p, q, request, Strong)
    ensures FinalPoints(p, q, request)
         == Worth(p, q, request) + (if p.auth.Some? then 3 else 0)
            + ReaderTimes(q, p.readers, request, Weak) + 2 * ReaderTimes(q, p.readers, request, Moderate)
            + 3 * ReaderTimes(q, p.readers, request, Strong)
  {
    PassiveCounts(p.matchers, q, request);
    ProbeCounts(p.probes, q, request);
    ReaderCounts(p, q, p.readers, request);
  }

  /** One point is a maybe, two are likely, three and more support, at full confidence. */
  predicate Rated(r: MatchResult, n: nat) {
    && r.confidence == (if n < 3 then n else 3)
    && (r.score.Unsupported? <==> n == 0) && (r.score.Maybe? <==> n == 1) && (r.score.Likely? <==> n == 2)
  }

  /** No profile earned more before authentication. */
  ghost predicate Leads(ps: seq<Provider>, request: Request, p: Provider, q: string) {
    && Runs(ps, request, p) && Worth(p, q, request) > 0
    && forall p', q' :: Runs(ps, request, p') ==> Worth(p', q', request) <= Worth(p, q, request)
  }

  /**
   Nothing selected is rated by the best there was: nothing at all, what the leading profile had earned before its
   authentication, or, for one that needs none, all it earned and too little.
   */
  lemma UnselectedRated(ps: seq<Provider>, request: Request)
    requires WellNamed(ps) && !Evaluate(ps, request).status.StatusSelected?
    ensures var r := Evaluate(ps, request);
            if r.status.StatusUnsupported? then Rated(r, 0)
            else exists p, q :: Leads(ps, request, p, q)
                   && (Rated(r, Worth(p, q, request))
                       || (p.auth.None? && FinalPoints(p, q, request) < 3 && Rated(r, FinalPoints(p, q, request))))
  {
    DecisionExact(ps, request);
    match DecisionOf(ps, request) {
      case NoCandidate =>
      case Tie(n) =>
        var p, q, p', q' :| Runs(ps, request, p) && Runs(ps, request, p') && !(p.id == p'.id && q == q')
                            && Worth(p, q, request) == n && Worth(p', q', request) == n;
        assert Leads(ps, request, p, q);
      case Top(c) =>
        TopLeads(ps, request, c);
        TopRated(ps, request, c);
    }
  }

  lemma TopRated(ps: seq<Provider>, request: Request, c: Candidate)
    requires Declares(ps, request, Top(c)) && DecisionOf(ps, request) == Top(c)
    requires !Evaluate(ps, request).status.StatusSelected?
    ensures var r, n := Evaluate(ps, request), FinalPoints(c.provider, c.profile, request);
            && r.status.StatusAmbiguous?
            && (Rated(r, Worth(c.provider, c.profile, request)) || (c.provider.auth.None? && n < 3 && Rated(r, n)))
  {
    var g := Gathered(ps, request);
    var closer := Closer(g.evidence, g.conflicts, c.points);
    var ready := if c.provider.auth.None? then closer else Authenticate(closer, c, c.provider.auth.value, request).progress;
    ReadAllPoints(ready, c.provider, c.profile, c.provider.readers, request);
  }

  lemma TopLeads(ps: seq<Provider>, request: Request, c: Candidate)
    requires WellNamed(ps) && Declares(ps, request, Top(c))
    ensures Leads(ps, request, c.provider, c.profile)
  {
    forall p', q' | Runs(ps, request, p') ensures Worth(p', q', request) <= Worth(c.provider, c.profile, request) {
      if p'.id == c.provider.id {
        SameName(ps, p');
      }
    }
  }

  // ---------------------------------------------------------------- what speaks against a candidate

  /** Evidence that contradicts: a mismatch anywhere but in the transport, or an authentication that did not match. */
  predicate Contradicts(e: Evidence) {
    || (e.signal.Mismatch? && !e.stage.TransportEligibility?)
    || (e.stage.AuthenticatedStage? && !e.signal.Match?)
  }

  /** Of contradicting passive facts only required ones are conflicts; of all others, every one is. */
  ghost predicate Sifted(evidence: seq<Evidence>, conflicts: seq<Evidence>) {
    && (forall e :: e in conflicts ==> e in evidence && Contradicts(e))
    && (forall e :: e in evidence && Contradicts(e) && !e.stage.PassiveFacts? ==> e in conflicts)
  }

  lemma {:induction false} PassiveSifted(g: Progress, p: Provider, ms: seq<PassiveMatcher>, request: Request)
    requires Sifted(g.evidence, g.conflicts)
    ensures Sifted(PassiveOf(g, p, ms, request).evidence, PassiveOf(g, p, ms, request).conflicts)
  {
    if ms != [] {
      PassiveSifted(g, p, ms[..|ms| - 1], request);
    }
  }

  lemma {:induction false} ProbeSifted(g: Progress, p: Provider, probes: seq<Probe>, request: Request)
    requires Sifted(g.evidence, g.conflicts)
    ensures Sifted(ProbeOf(g, p, probes, request).evidence, ProbeOf(g, p, probes, request).conflicts)
  {
    if probes != [] {
      ProbeSifted(g, p, probes[..|probes| - 1], request);
    }
  }

  lemma {:induction false} AllSifted(g: Progress, ps: seq<Provider>, request: Request)
    requires Sifted(g.evidence, g.conflicts)
    ensures Sifted(PassiveAll(g, ps, request).evidence, PassiveAll(g, ps, request).conflicts)
    ensures Sifted(ProbeAll(g, ps, request).evidence, ProbeAll(g, ps, request).conflicts)
  {
    if ps != [] {
      var front, last := ps[..|ps| - 1], ps[|ps| - 1];
      AllSifted(g, front, request);
      PassiveSifted(PassiveAll(g, front, request), last, last.matchers, request);
      ProbeSifted(ProbeAll(g, front, request), last, last.probes, request);
    }
  }

  lemma GatheredSifted(ps: seq<Provider>, request: Request)
    ensures Sifted(Gathered(ps, request).evidence, Gathered(ps, request).conflicts)
  {
    var g := Progress(TransportAll(ps, request), [], []);
    assert forall e :: e in g.evidence ==> e.stage.TransportEligibility?;
    AllSifted(g, EligibleOf(ps, request), request);
    AllSifted(PassiveAll(g, EligibleOf(ps, request), request), EligibleOf(ps, request), request);
  }

  lemma {:induction false} ReadSifted(g: Closer, p: Provider, q: string, readers: seq<CapabilityReader>, request: Request)
    requires Sifted(g.evidence, g.conflicts)
    ensures Sifted(ReadAll(g, p, q, readers, request).evidence, ReadAll(g, p, q, readers, request).conflicts)
  {
    if readers != [] {
      ReadSifted(g, p, q, readers[..|readers| - 1], request);
    }
  }

  /** Whatever the result, its conflicts are exactly the contradicting evidence, but for facts nobody required. */
  lemma ConflictsExact(ps: seq<Provider>, request: Request)
    ensures Sifted(Evaluate(ps, request).evidence, Evaluate(ps, request).conflicts)
  {
    var d, g := DecisionOf(ps, request), Gathered(ps, request);
    GatheredSifted(ps, request);
    if d.Top? {
      var c := d.candidate;
      var closer := Closer(g.evidence, g.conflicts, c.points);
      if c.provider.auth.None? {
        ReadSifted(closer, c.provider, c.profile, c.provider.readers, request);
      } else {
        var ready := Authenticate(closer, c, c.provider.auth.value, request).progress;
        assert Sifted(ready.evidence, ready.conflicts);
        ReadSifted(ready, c.provider, c.profile, c.provider.readers, request);
      }
    }
  }

  /** What a passive matcher of `p` reports when the facts disprove it. */
  function Disproof(p: Provider, m: PassiveMatcher): Evidence {
    Evidence(p.id, OnlyProfile(m.profiles), PassiveFacts, m.id, Mismatch, Some(m.strength), "expected-fact-not-proven")
  }

  ghost predicate Demanded(p: Provider, ms: seq<PassiveMatcher>, request: Request, e: Evidence) {
    exists m :: m in ms && m.required && Disproves(m, request) && e == Disproof(p, m)
  }

  lemma {:induction false} PassiveDemanded(g: Progress, p: Provider, ms: seq<PassiveMatcher>, request: Request, e: Evidence)
    ensures e in PassiveOf(g, p, ms, request).conflicts <==> e in g.conflicts || Demanded(p, ms, request, e)
  {
    if ms != [] {
      var front, m := ms[..|ms| - 1], ms[|ms| - 1];
      assert ms == front + [m];
      PassiveDemanded(g, p, front, request, e);
      SignalExact(m, request);
    }
  }

  ghost predicate DemandedBy(ps: seq<Provider>, request: Request, e: Evidence) {
    exists p :: p in ps && Demanded(p, p.matchers, request, e)
  }

  lemma {:induction false} AllDemanded(g: Progress, ps: seq<Provider>, request: Request, e: Evidence)
    ensures e in PassiveAll(g, ps, request).conflicts <==> e in g.conflicts || DemandedBy(ps, request, e)
  {
    if ps != [] {
      var front, p := ps[..|ps| - 1], ps[|ps| - 1];
      assert ps == front + [p];
      AllDemanded(g, front, request, e);
      PassiveDemanded(PassiveAll(g, front, request), p, p.matchers, request, e);
    }
  }

  lemma {:induction false} ProbeAdds(g: Progress, p: Provider, probes: seq<Probe>, request: Request, e: Evidence)
    requires e.stage.PassiveFacts?
    ensures e in ProbeOf(g, p, probes, request).conflicts <==> e in g.conflicts
  {
    if probes != [] {
      ProbeAdds(g, p, probes[..|probes| - 1], request, e);
    }
  }

  lemma {:induction false} ProbesAdd(g: Progress, ps: seq<Provider>, request: Request, e: Evidence)
    requires e.stage.PassiveFacts?
    ensures e in ProbeAll(g, ps, request).conflicts <==> e in g.conflicts
  {
    if ps != [] {
      ProbesAdd(g, ps[..|ps| - 1], request, e);
      ProbeAdds(ProbeAll(g, ps[..|ps| - 1], request), ps[|ps| - 1], ps[|ps| - 1].probes, request, e);
    }
  }

  lemma {:induction false} ReadAdds(g: Closer, p: Provider, q: string, readers: seq<CapabilityReader>, request: Request, e: Evidence)
    requires e.stage.PassiveFacts?
    ensures e in ReadAll(g, p, q, readers, request).conflicts <==> e in g.conflicts
  {
    if readers != [] {
      ReadAdds(g, p, q, readers[..|readers| - 1], request, e);
    }
  }

  /** Among passive facts the conflicts are exactly the disproved ones that a provider on this transport requires. */
  lemma RequiredConflicts(ps: seq<Provider>, request: Request, e: Evidence)
    requires e.stage.PassiveFacts?
    ensures e in Evaluate(ps, request).conflicts <==>
            exists p, m :: p in ps && request.transport in p.transports && m in p.matchers && m.required
                           && Disproves(m, request) && e == Disproof(p, m)
  {
    var d, el := DecisionOf(ps, request), EligibleOf(ps, request);
    var g := Progress(TransportAll(ps, request), [], []);
    EligibleExact(ps, request);
    AllDemanded(g, el, request, e);
    ProbesAdd(PassiveAll(g, el, request), el, request, e);
    ConcludeAdds(d, Gathered(ps, request).evidence, Gathered(ps, request).conflicts, request, e);
  }

  lemma ConcludeAdds(d: Decision, evidence: seq<Evidence>, conflicts: seq<Evidence>, request: Request, e: Evidence)
    requires e.stage.PassiveFacts?
    ensures e in Conclude(d, evidence, conflicts, request).conflicts <==> e in conflicts
  {
    if d.Top? {
      var c := d.candidate;
      var closer := Closer(evidence, conflicts, c.points);
      if c.provider.auth.None? {
        ReadAdds(closer, c.provider, c.profile, c.provider.readers, request, e);
      } else {
        var ready := Authenticate(closer, c, c.provider.auth.value, request).progress;
        ReadAdds(ready, c.provider, c.profile, c.provider.readers, request, e);
      }
    }
  }

  // ---------------------------------------------------------------- an id with the separator in it

  /** Says it matches `profile`, strongly, whatever it is asked. */
  function Claims(id: string, profile: string): Provider {
    Provider(id, "1", [Usb], [], [Probe("probe", r => Fingerprint(Match, Strong, [profile], ""))], None, [], q => ReadOnly)
  }

  lemma ClaimsWorth(p: Provider, q: Provider, profile: string, other: string, request: Request)
    requires p == Claims(p.id, profile) && q == Claims(q.id, other) && request.transport == Usb
    requires KeyOf(p, profile) == KeyOf(q, other)
    ensures DecisionOf([p, q], request) == Top(Candidate(p, profile, 6))
  {
    var g := Progress(TransportAll([p, q], request), [], []);
    assert [p, q][..1] == [p] && [p][..0] == [];
    assert EligibleOf([], request) == [] && EligibleOf([p], request) == [p] && EligibleOf([p, q], request) == [p, q];
    assert PassiveAll(g, [], request) == g && PassiveAll(g, [p], request) == g && PassiveAll(g, [p, q], request) == g;
    assert p.probes[..0] == [] && q.probes[..0] == [];
    var one := ProbeAll(g, [p], request);
    assert ProbeAll(g, [], request) == g && ProbeOf(g, p, [], request) == g;
    assert one == ProbeStep(g, p, p.probes[0], request) && one.awards == [Award(p, profile, Strong)];
    assert ProbeOf(one, q, [], request) == one;
    var two := ProbeAll(g, [p, q], request);
    assert two == ProbeStep(one, q, q.probes[0], request) && two.awards == [Award(p, profile, Strong), Award(q, other, Strong)];
    assert two.awards[..1] == [Award(p, profile, Strong)] && two.awards[..1][..0] == [];
    assert AddAll([], two.awards[..1]) == [Candidate(p, profile, 3)];
    assert AddAll([], two.awards) == [Candidate(p, profile, 6)];
    assert Ranked([]) == [] && Ranked([Candidate(p, profile, 6)]) == [Candidate(p, profile, 6)];
  }

  /**
   Ids that are not apart: profiles of the two providers share a key, their points are pooled, and
   whoever was registered first is selected.
   */
  lemma SharedKeyPools(a: string, b: string, request: Request) returns (p: Provider, q: Provider)
    requires !Apart(a, b) && request.transport == Usb
    ensures p.id == a && q.id == b
    ensures Evaluate([p, q], request).status.StatusSelected? && Evaluate([p, q], request).provider == Some(a)
    ensures Evaluate([q, p], request).status.StatusSelected? && Evaluate([q, p], request).provider == Some(b)
  {
    p, q := Claims(a, ""), Claims(b, "");
    ApartExact(p, q);
    var one, other :| KeyOf(p, one) == KeyOf(q, other);
    p, q := Claims(a, one), Claims(b, other);
    ClaimsWorth(p, q, one, other, request);
    ClaimsWorth(q, p, other, one, request);
  }

  /** Registration order never decides between providers of these two ids. */
  ghost predicate OrderFree(a: string, b: string) {
    forall p: Provider, q: Provider, request ::
      p.id == a && q.id == b ==> SameChoice(Evaluate([p, q], request), Evaluate([q, p], request))
  }

  /** Of two distinct ids, the order of registration never decides exactly when they are apart. */
  lemma OrderFreeExact(a: string, b: string)
    requires a != b
    ensures OrderFree(a, b) <==> Apart(a, b)
  {
    if Apart(a, b) {
      forall p: Provider, q: Provider, request | p.id == a && q.id == b
        ensures SameChoice(Evaluate([p, q], request), Evaluate([q, p], request))
      {
        assert [p, q] == [p] + [q] && [q, p] == [q] + [p];
        OrderIndependence([p, q], [q, p], request);
      }
    } else {
      var request := Request("", 0, Usb, [], "", None);
      var p, q := SharedKeyPools(a, b, request);
      assert !SameChoice(Evaluate([p, q], request), Evaluate([q, p], request));
    }
  }
}
