/** The readiness gate for cluster policies with a physical limiter: the cached
    node-list probe, the published state of a composed policy, and the verdict. */
module Readiness {
  import opened Options

  const TTL := 30                       // seconds an answer is reused

  /** What listing nodes came to: allowed, refused by authorization, or an error
      that says nothing about authorization. */
  datatype Listing = Granted | Denied(why: string) | Failed(why: string)

  predicate Definite(l: Listing) { !l.Failed? }

  /** What the probe reports: the verdict, or that there is none yet. */
  datatype Answer = Verdict(l: Listing) | Unanswered(why: string)

  predicate Ready(a: Answer) { a == Verdict(Granted) }

  /** The cached verdict; `once` says whether there has been one. */
  datatype Probe = Probe(at: int, once: bool, verdict: Listing)

  /** One probe: it reads the clock, lists nodes if it must, and reads it again. */
  datatype Event = Event(now: int, list: Listing, after: int)

  predicate Asks(p: Probe, e: Event) {
    !(p.once && e.now - p.at < TTL)
  }

  function After(p: Probe, e: Event): Probe {
    if !Asks(p, e) then p
    else if Definite(e.list) then Probe(e.after, true, e.list)
    else if !p.once then p
    else p.(at := e.after)
  }

  function Answered(p: Probe, e: Event): Answer {
    if Asks(p, e) && !Definite(e.list) && !p.once then Unanswered(e.list.why)
    else Verdict(After(p, e).verdict)
  }

  // Every sequence of probes.

  const FRESH := Probe(0, false, Granted)

  function Probed(es: seq<Event>): Probe {
    if es == [] then FRESH else After(Probed(es[..|es| - 1]), es[|es| - 1])
  }

  /** What probe number i of the sequence reports. */
  function Report(es: seq<Event>, i: nat): Answer
    requires i < |es|
  {
    Answered(Probed(es[..i]), es[i])
  }

  /** Probe i asked the API server, and got an answer about authorization. */
  predicate Settled(es: seq<Event>, i: nat)
    requires i < |es|
  {
    Asks(Probed(es[..i]), es[i]) && Definite(es[i].list)
  }

  /** The latest definite answer among the first n probes. */
  function Latest(es: seq<Event>, n: nat): Option<Listing>
    requires n <= |es|
  {
    if n == 0 then None
    else if Settled(es, n - 1) then Some(es[n - 1].list)
    else Latest(es, n - 1)
  }

  lemma {:induction false} CacheIsLatest(es: seq<Event>, n: nat)
    requires n <= |es|
    ensures var p := Probed(es[..n]);
      (p.once <==> Latest(es, n).Some?) && (p.once ==> p.verdict == Latest(es, n).value && Definite(p.verdict))
  {
    if n > 0 {
      CacheIsLatest(es, n - 1);
      assert es[..n][..n - 1] == es[..n - 1];
    }
  }

  /** Over every sequence of probes the report is the latest definite answer, the
      one just received included, and "unanswered" exactly before the first; an
      error that is not about authorization never changes it. */
  lemma ProbeReportsLatest(es: seq<Event>, i: nat)
    requires i < |es|
    ensures match Latest(es, i + 1)
      case Some(l) => Report(es, i) == Verdict(l) && Definite(l)
      case None => es[i].list.Failed? && Report(es, i) == Unanswered(es[i].list.why)
    ensures es[i].list.Failed? ==> Latest(es, i + 1) == Latest(es, i)
  {
    CacheIsLatest(es, i);
    CacheIsLatest(es, i + 1);
    assert es[..i + 1][..i] == es[..i];
  }

  /** Probes queue behind each other. */
  ghost predicate InOrder(es: seq<Event>) {
    && (forall i :: 0 <= i < |es| ==> es[i].now <= es[i].after)
    && (forall i, j :: 0 <= i < j < |es| ==> es[i].after <= es[j].now)
  }

  /** From T on every listing that completes succeeds. */
  ghost predicate GrantedFrom(es: seq<Event>, T: int) {
    forall i :: 0 <= i < |es| && es[i].after >= T ==> es[i].list == Granted
  }

  lemma {:induction false} CacheRecovers(es: seq<Event>, T: int, n: nat)
    requires GrantedFrom(es, T) && n <= |es|
    ensures var p := Probed(es[..n]); p.once && p.at >= T ==> p.verdict == Granted
  {
    if n > 0 {
      CacheRecovers(es, T, n - 1);
      assert es[..n][..n - 1] == es[..n - 1];
    }
  }

  /** Granting the read recovers readiness on its own: if every listing that
      completes from T on succeeds, every probe from T + TTL on is ready. */
  lemma ProbeRecovers(es: seq<Event>, T: int, i: nat)
    requires InOrder(es) && GrantedFrom(es, T) && i < |es| && es[i].now >= T + TTL
    ensures Ready(Report(es, i))
  {
    CacheRecovers(es, T, i);
  }

  /** The TTL is needed in full: a denial cached at T - 1 is still reported at
      T + TTL - 2 although every later listing would succeed. */
  lemma RecoveryTakesTheTTL(T: int)
    ensures var es := [Event(T - 1, Denied("rbac"), T - 1), Event(T + TTL - 2, Granted, T + TTL - 2)];
      InOrder(es) && GrantedFrom(es, T) && !Ready(Report(es, 1))
  {
    var es := [Event(T - 1, Denied("rbac"), T - 1), Event(T + TTL - 2, Granted, T + TTL - 2)];
    assert es[..1] == [es[0]] && [es[0]][..0] == [];
    assert Probed([es[0]]) == Probe(T - 1, true, Denied("rbac"));
  }

  /** A denial is reported for exactly the TTL: the next probe, d seconds later and
      met by a listing that would succeed, is ready if and only if d is at least
      that. */
  lemma DenialLastsTheTTL(T: int, d: nat)
    ensures var es := [Event(T, Denied("rbac"), T), Event(T + d, Granted, T + d)];
      Ready(Report(es, 1)) <==> d >= TTL
  {
    var es := [Event(T, Denied("rbac"), T), Event(T + d, Granted, T + d)];
    assert es[..1] == [es[0]] && [es[0]][..0] == [];
    assert Probed([es[0]]) == Probe(T, true, Denied("rbac"));
  }

  /** An error that is not about authorization is not asked about again before the
      TTL has passed either: with a denial known, a failed listing at T and one that
      would succeed d seconds later, the probe is ready if and only if d is at least
      that. */
  lemma FailureWaitsTheTTL(T: int, d: nat)
    ensures var es := [Event(T - TTL, Denied("rbac"), T - TTL), Event(T, Failed("timeout"), T), Event(T + d, Granted, T + d)];
      Ready(Report(es, 2)) <==> d >= TTL
  {
    var es := [Event(T - TTL, Denied("rbac"), T - TTL), Event(T, Failed("timeout"), T), Event(T + d, Granted, T + d)];
    assert es[..2] == [es[0], es[1]] && [es[0], es[1]][..1] == [es[0]] && [es[0]][..0] == [];
    assert Probed([es[0]]) == Probe(T - TTL, true, Denied("rbac"));
    assert Probed([es[0], es[1]]) == Probe(T, true, Denied("rbac"));
  }

  // The composed policy's published state, and the gate.

  /** `published` is the skipped-provider metric, `logged` the lines written. */
  datatype Read = Read(denied: bool, lastErr: string, published: bool, logged: nat)

  function Publish(r: Read, err: Option<string>): Read {
    var msg := if err.Some? then err.value else "";
    if err.Some? == r.denied && msg == r.lastErr then r.(published := err.Some?)
    else Read(err.Some?, msg, err.Some?, if err.Some? || r.denied then r.logged + 1 else r.logged)
  }

  datatype Gate = Gate(probe: Probe, read: Read)

  /** One readiness check: the policy's limiters, and what probing would meet. */
  datatype Check = Check(physical: bool, limiters: nat, event: Event)

  function ErrorOf(a: Answer): Option<string> {
    match a
    case Verdict(Granted) => None
    case Verdict(l) => Some(l.why)
    case Unanswered(why) => Some(why)
  }

  predicate Composed(c: Check) { c.physical && c.limiters > 1 }

  function Checked(g: Gate, c: Check): Gate {
    if !c.physical then g.(read := Publish(g.read, None))
    else
      var a := Answered(g.probe, c.event);
      var p := After(g.probe, c.event);
      if c.limiters > 1 then Gate(p, if a.Unanswered? then g.read else Publish(g.read, ErrorOf(a)))
      else Gate(p, Publish(g.read, None))
  }

  /** The error of the check; None is ready. */
  function CheckError(g: Gate, c: Check): Option<string> {
    if !c.physical || c.limiters > 1 then None else ErrorOf(Answered(g.probe, c.event))
  }

  function Gated(cs: seq<Check>): Gate {
    if cs == [] then Gate(FRESH, Read(false, "", false, 0)) else Checked(Gated(cs[..|cs| - 1]), cs[|cs| - 1])
  }

  /** What is published is a denial the API server gave, and is still the verdict. */
  ghost predicate Honest(g: Gate) {
    && (g.probe.once ==> Definite(g.probe.verdict))
    && (g.read.denied ==> g.probe.once && g.probe.verdict == Denied(g.read.lastErr))
    && (!g.read.denied ==> g.read.lastErr == "")
    && g.read.published == g.read.denied
  }

  /** One check keeps the gate honest, and logs exactly when the state changes. */
  lemma CheckHonest(g: Gate, c: Check)
    requires Honest(g)
    ensures Honest(Checked(g, c))
    ensures var r, r' := g.read, Checked(g, c).read;
      r'.logged == if r.denied == r'.denied && r.lastErr == r'.lastErr then r.logged else r.logged + 1
  {
  }

  /** Over every sequence of checks, whatever the policies in force: a composed
      policy is never not ready, a physical limiter alone is ready exactly on a
      granted read, and what a composed policy publishes is the denial itself,
      never a missing answer. */
  lemma {:induction false} GateHonest(cs: seq<Check>, i: nat)
    requires i < |cs|
    ensures Honest(Gated(cs[..i])) && Honest(Gated(cs[..i + 1]))
    ensures Composed(cs[i]) ==> CheckError(Gated(cs[..i]), cs[i]) == None
    ensures cs[i].physical && cs[i].limiters <= 1 ==>
      (CheckError(Gated(cs[..i]), cs[i]) == None <==> Ready(Answered(Gated(cs[..i]).probe, cs[i].event)))
    ensures Composed(cs[i]) ==> match Answered(Gated(cs[..i]).probe, cs[i].event)
      case Verdict(l) => Gated(cs[..i + 1]).read.published == l.Denied?
      case Unanswered(_) => Gated(cs[..i + 1]).read == Gated(cs[..i]).read && !Gated(cs[..i]).read.published
  {
    if i > 0 {
      GateHonest(cs, i - 1);
      assert cs[..i][..i - 1] == cs[..i - 1];
    }
    assert cs[..i + 1][..i] == cs[..i];
    CheckHonest(Gated(cs[..i]), cs[i]);
  }

  /** The probes a sequence of checks makes: those of policies with a physical limiter. */
  function Probes(cs: seq<Check>): seq<Event> {
    if cs == [] then []
    else
      var n := |cs| - 1;
      Probes(cs[..n]) + if cs[n].physical then [cs[n].event] else []
  }

  lemma {:induction false} GateProbes(cs: seq<Check>)
    ensures Gated(cs).probe == Probed(Probes(cs))
  {
    if cs != [] {
      var n := |cs| - 1;
      GateProbes(cs[..n]);
      if cs[n].physical {
        assert (Probes(cs[..n]) + [cs[n].event])[..|Probes(cs[..n])|] == Probes(cs[..n]);
      } else {
        assert Probes(cs[..n]) + [] == Probes(cs[..n]);
      }
    }
  }

  /** What the API server last said when the checks are done. */
  ghost function Said(cs: seq<Check>): Option<Listing> {
    Latest(Probes(cs), |Probes(cs)|)
  }

  /** The gate as a function of what the API server said, over every sequence of
      checks: a policy without a physical limiter is ready; a composed one is ready;
      a physical limiter alone is ready exactly when the latest definite answer
      granted the read. The metric shows a denial exactly while a composed policy is
      in force and the latest definite answer is that denial. */
  lemma GateExactly(cs: seq<Check>)
    requires cs != []
    ensures var n := |cs| - 1;
      var c, said := cs[n], Said(cs);
      && (CheckError(Gated(cs[..n]), c) == None <==> !c.physical || c.limiters > 1 || said == Some(Granted))
      && (Gated(cs).read.published <==> Composed(c) && said.Some? && said.value.Denied?)
      && (Gated(cs).read.published ==> Gated(cs).read.lastErr == said.value.why)
  {
    var n := |cs| - 1;
    var c, es := cs[n], Probes(cs);
    GateProbes(cs[..n]);
    GateProbes(cs);
    GateHonest(cs, n);
    assert cs[..n + 1] == cs;
    if c.physical {
      var i := |Probes(cs[..n])|;
      assert es == Probes(cs[..n]) + [c.event];
      assert es[..i] == Probes(cs[..n]) && es[i] == c.event;
      ProbeReportsLatest(es, i);
    }
  }

  /** How many of the checks changed what is known of the node read. */
  ghost function Changes(cs: seq<Check>): nat {
    if cs == [] then 0
    else
      var n := |cs| - 1;
      var r, r' := Gated(cs[..n]).read, Gated(cs).read;
      Changes(cs[..n]) + if r.denied == r'.denied && r.lastErr == r'.lastErr then 0 else 1
  }

  /** The log holds one line per change, over every sequence of checks. */
  lemma {:induction false} LogsChanges(cs: seq<Check>)
    ensures Gated(cs).read.logged == Changes(cs)
  {
    if cs != [] {
      var n := |cs| - 1;
      LogsChanges(cs[..n]);
      GateHonest(cs, n);
      CheckHonest(Gated(cs[..n]), cs[n]);
    }
  }

  // The package variables and the methods that update them.

  class ReadinessGate {
    var at: int
    var once: bool
    var verdict: Listing
    var denied: bool
    var lastErr: string
    var published: bool
    var logged: nat

    ghost function State(): Gate
      reads this
    {
      Gate(Probe(at, once, verdict), Read(denied, lastErr, published, logged))
    }

    constructor ()
      ensures State() == Gated([])
    {
      at, once, verdict := 0, false, Granted;
      denied, lastErr, published, logged := false, "", false, 0;
    }

    method NodeReadProbe(e: Event) returns (a: Answer)
      modifies this`at, this`once, this`verdict
      ensures a == Answered(old(State()).probe, e)
      ensures State() == old(State()).(probe := After(old(State()).probe, e))
    {
      if once && e.now - at < TTL {
        return Verdict(verdict);
      }
      if !e.list.Failed? {
        at, once, verdict := e.after, true, e.list;
      } else if !once {
        return Unanswered(e.list.why);
      } else {
        at := e.after;
      }
      return Verdict(verdict);
    }

    method ReportComposed(err: Option<string>)
      modifies this`denied, this`lastErr, this`published, this`logged
      ensures State() == old(State()).(read := Publish(old(State()).read, err))
    {
      published := err.Some?;
      var msg := if err.Some? then err.value else "";
      if err.Some? == denied && msg == lastErr {
        return;
      }
      if err.Some? {
        logged := logged + 1;
      } else if denied {
        logged := logged + 1;
      }
      denied, lastErr := err.Some?, msg;
    }

    method GpuPolicyReady(c: Check) returns (err: Option<string>)
      modifies this
      ensures err == CheckError(old(State()), c)
      ensures State() == Checked(old(State()), c)
    {
      if !c.physical {
        ReportComposed(None);
        return None;
      }
      var a := NodeReadProbe(c.event);
      if c.limiters > 1 {
        if !a.Unanswered? {
          ReportComposed(ErrorOf(a));
        }
        return None;
      }
      ReportComposed(None);
      return ErrorOf(a);
    }
  }
}
