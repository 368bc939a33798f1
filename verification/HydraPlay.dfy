/** Two session objects joined by two lines, driven through any sequence of steps. What holds of
    all runs holds of the objects. */
module HydraPlay {
  import opened HydraTypes
  import opened HydraEndpoint
  import opened HydraSystem
  import opened HydraSession
  import HydraOptions
  import HydraWindows
  import HydraFile
  import HydraDevice
  import HydraShutdown

  /** The state of two objects and of the lines between them. */
  ghost function Joined(a: Session, b: Session, ab: seq<Frame>, ba: seq<Frame>): System
    reads a, b
  {
    System(a.Snapshot(), b.Snapshot(), ab, ba)
  }

  /** One step at the object me, whose incoming line is given; the packets it sends are out. */
  method Act(me: Session, incoming: seq<Frame>, action: Action, env: Env) returns (rest: seq<Frame>, out: seq<Frame>)
    requires action.Arrive? || action.Lose? ==> incoming != []
    modifies me
    ensures var m := HydraSystem.Act(old(me.Snapshot()), incoming, action, env);
      me.Snapshot() == m.e && out == m.out && rest == Consumed(incoming, action)
  {
    hide Transmit, Receive, DevQueue;
    me.line := [];
    rest := incoming;
    match action {
      case Pass => me.Transmit(env);
      case Arrive =>
        rest := incoming[1..];
        var _ := me.Receive(Received(incoming[0].p), env);
      case Lose => rest := incoming[1..];
      case TxExpires => var _ := me.Receive(TxTimeout, env);
      case DevExpires => var _ := me.Receive(DevTimeout, env);
      case Break => var _ := me.Receive(Fatal, env);
      case Queue(msg) => var _ := me.DevSend(msg);
    }
    out := me.line;
  }

  /** Whether a step can be taken now. */
  method CanAct(me: Session, peer: Session, incoming: seq<Frame>, l: Label) returns (ok: bool)
    ensures ok == (
      && (l.env.accept.Open? ==> l.env.accept.existing <= peer.source)
      && match l.action
         case Arrive => incoming != []
         case Lose => incoming != []
         case TxExpires => me.Snapshot().tx.timer
         case DevExpires => me.Snapshot().dev.timer
         case Queue(_) => me.Snapshot().tx.state != HTX_DONE
         case _ => true)
  {
    ok := match l.action
      case Arrive => incoming != []
      case Lose => incoming != []
      case TxExpires => me.tx.timer
      case DevExpires => me.dev.timer
      case Queue(_) => me.tx.state != HTX_DONE
      case _ => true;
    if l.env.accept.Open? && !(l.env.accept.existing <= peer.source) {
      ok := false;
    }
  }

  /** One step of the system; an impossible one changes nothing. */
  method TakeStep(a: Session, b: Session, ab: seq<Frame>, ba: seq<Frame>, l: Label)
    returns (ab': seq<Frame>, ba': seq<Frame>)
    requires a != b
    modifies a, b
    ensures Joined(a, b, ab', ba') == Step(old(Joined(a, b, ab, ba)), l)
  {
    hide HydraSystem.Act;
    ab', ba' := ab, ba;
    if l.side == A {
      var ok := CanAct(a, b, ba, l);
      if ok {
        var rest, out := Act(a, ba, l.action, l.env);
        ab', ba' := ab + out, rest;
      }
    } else {
      var ok := CanAct(b, a, ab, l);
      if ok {
        var rest, out := Act(b, ab, l.action, l.env);
        ab', ba' := rest, ba + out;
      }
    }
  }

  /** After the handshake the windows agree exactly if limits and options allow it. */
  predicate SameWindows(u: Setup, x: Endpoint, y: Endpoint) {
    HydraWindows.Late(x) && HydraWindows.Late(y) ==>
      (HydraWindows.OneWindow(x, y) <==>
        HydraWindows.SameLimit(u.cfgA, u.cfgB) && HydraWindows.SameLimit(u.cfgB, u.cfgA))
  }

  /** A whole run. In its final state, and so in every state on the way, files and device messages
      agree, a completed session is complete on both sides, windows agree if they can, and packets are decoded
      as they were encoded if both first files could be opened. */
  method Play(u: Setup, ls: seq<Label>) returns (a: Session, b: Session, ab: seq<Frame>, ba: seq<Frame>)
    ensures fresh(a) && fresh(b) && a != b
    ensures Joined(a, b, ab, ba) == Run(Begin(u), ls)
    ensures HydraDevice.ExactlyOnce(a.Snapshot(), b.Snapshot()) && HydraDevice.ExactlyOnce(b.Snapshot(), a.Snapshot())
    ensures HydraShutdown.ShutDown(a.Snapshot(), b.Snapshot()) && HydraShutdown.ShutDown(b.Snapshot(), a.Snapshot())
    ensures GoodSetup(u) ==>
      && HydraFile.Agrees(HydraFile.SourceOf(u.firstA), a.Snapshot(), b.Snapshot())
      && HydraFile.Agrees(HydraFile.SourceOf(u.firstB), b.Snapshot(), a.Snapshot())
    ensures GoodSetup(u) && !u.firstA.OpenFails? && !u.firstB.OpenFails? ==>
      HydraOptions.OptionSafe(Joined(a, b, ab, ba))
    ensures GoodSetup(u) && HydraWindows.GoodLimits(u) ==> SameWindows(u, a.Snapshot(), b.Snapshot())
  {
    hide Step, Run;
    a := new Session(u.cfgA, u.firstA, u.msg);
    b := new Session(u.cfgB, u.firstB, u.msg);
    ab, ba := [], [];
    var i := 0;
    assert Run(Begin(u), ls[..0]) == Begin(u) by { NoStep(Begin(u)); assert ls[..0] == []; }
    while i < |ls|
      invariant 0 <= i <= |ls| && fresh(a) && fresh(b) && a != b
      invariant Joined(a, b, ab, ba) == Run(Begin(u), ls[..i])
    {
      ab, ba := TakeStep(a, b, ab, ba, ls[i]);
      OneMore(Begin(u), ls, i);
      i := i + 1;
    }
    assert ls[..i] == ls;
    Conclusions(u, ls);
  }

  lemma NoStep(s: System)
    ensures Run(s, []) == s
  {
  }

  lemma OneMore(s: System, ls: seq<Label>, i: nat)
    requires i < |ls|
    ensures Run(s, ls[..i + 1]) == Step(Run(s, ls[..i]), ls[i])
  {
    hide Step;
    assert ls[..i + 1][..i] == ls[..i];
  }

  lemma Conclusions(u: Setup, ls: seq<Label>)
    ensures var s := Run(Begin(u), ls);
      && HydraDevice.ExactlyOnce(s.a, s.b) && HydraDevice.ExactlyOnce(s.b, s.a)
      && HydraShutdown.ShutDown(s.a, s.b) && HydraShutdown.ShutDown(s.b, s.a)
      && (GoodSetup(u) ==>
           && HydraFile.Agrees(HydraFile.SourceOf(u.firstA), s.a, s.b)
           && HydraFile.Agrees(HydraFile.SourceOf(u.firstB), s.b, s.a))
      && (GoodSetup(u) && !u.firstA.OpenFails? && !u.firstB.OpenFails? ==> HydraOptions.OptionSafe(s))
      && (GoodSetup(u) && HydraWindows.GoodLimits(u) ==> SameWindows(u, s.a, s.b))
  {
    hide Run, Begin, HydraFile.Agrees, HydraOptions.OptionSafe, HydraDevice.ExactlyOnce, HydraShutdown.ShutDown;
    HydraDevice.DeviceDelivery(u, ls);
    HydraShutdown.CleanShutdown(u, ls);
    if GoodSetup(u) {
      HydraFile.FileAgreement(u, ls);
      HydraOptions.OptionAgreement(u);
      if HydraWindows.GoodLimits(u) {
        HydraWindows.WindowAgreement(u, ls);
      }
    }
  }
}
