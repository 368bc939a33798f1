/** Two Hydra endpoints joined by two lines. A line keeps packets in order and unaltered
    but may lose any of them. */
module HydraSystem {
  import opened HydraTypes
  import opened HydraEndpoint

  datatype System = System(a: Endpoint, b: Endpoint, ab: seq<Frame>, ba: seq<Frame>)

  datatype Side = A | B

  /** One step of the system, taken at one endpoint. Lose drops the packet that would be the
      next to arrive at that side. */
  datatype Action =
    | Pass                     // one pass of the main loop up to the receive loop
    | Arrive                   // the next packet arrives
    | Lose
    | TxExpires
    | DevExpires
    | Break
    | Queue(msg: DevMsg)       // hydra_devsend() by the user of the device channel, while hydra() runs

  datatype Label = Label(side: Side, action: Action, env: Env)

  /** The same system seen from the other side. */
  function Flip(s: System): System {
    System(s.b, s.a, s.ba, s.ab)
  }

  function FlipLabel(l: Label): Label {
    l.(side := if l.side == A then B else A)
  }

  /** A partial file on the receiver's disk is assumed to be a prefix of what the peer sends. */
  predicate Possible(s: System, l: Label) {
    var me := if l.side == A then s.a else s.b;
    var peer := if l.side == A then s.b else s.a;
    && (l.env.accept.Open? ==> l.env.accept.existing <= peer.source)
    && match l.action
       case Arrive => (if l.side == A then s.ba else s.ab) != []
       case Lose => (if l.side == A then s.ba else s.ab) != []
       case TxExpires => me.tx.timer
       case DevExpires => me.dev.timer
       case Queue(_) => me.tx.state != HTX_DONE
       case _ => true
  }

  /** What endpoint e does, given the packets that are on their way to it. */
  function Act(e: Endpoint, incoming: seq<Frame>, action: Action, env: Env): Move
    requires action.Arrive? ==> incoming != []
  {
    match action
    case Pass => Transmit(e, env)
    case Arrive => Receive(e, Received(incoming[0].p), env)
    case Lose => Stay(e)
    case TxExpires => Receive(e, TxTimeout, env)
    case DevExpires => Receive(e, DevTimeout, env)
    case Break => Receive(e, Fatal, env)
    case Queue(msg) => Stay(DevQueue(e, msg))
  }

  function Consumed(incoming: seq<Frame>, action: Action): seq<Frame>
    requires action.Arrive? || action.Lose? ==> incoming != []
  {
    if action.Arrive? || action.Lose? then incoming[1..] else incoming
  }

  /** A step at side A. */
  function StepA(s: System, action: Action, env: Env): System
    requires action.Arrive? || action.Lose? ==> s.ba != []
  {
    var m := Act(s.a, s.ba, action, env);
    System(m.e, s.b, s.ab + m.out, Consumed(s.ba, action))
  }

  /** One step; an impossible label changes nothing. */
  function Step(s: System, l: Label): System {
    if !Possible(s, l) then s
    else if l.side == A then StepA(s, l.action, l.env)
    else Flip(StepA(Flip(s), l.action, l.env))
  }

  function Run(s: System, ls: seq<Label>): System
    decreases |ls|
  {
    if ls == [] then s else Step(Run(s, ls[..|ls| - 1]), ls[|ls| - 1])
  }

  /** What the session starts from: each side's configuration and first call. */
  datatype Setup = Setup(cfgA: Config, firstA: FirstCall, cfgB: Config, firstB: FirstCall, msg: DevMsg)

  predicate GoodSetup(u: Setup) {
    GoodConfig(u.cfgA) && GoodConfig(u.cfgB)
  }

  function Begin(u: Setup): System {
    System(StartSession(u.cfgA, u.firstA, u.msg), StartSession(u.cfgB, u.firstB, u.msg), [], [])
  }

  function FlipSetup(u: Setup): Setup {
    Setup(u.cfgB, u.firstB, u.cfgA, u.firstA, u.msg)
  }

  function FlipLabels(ls: seq<Label>): seq<Label> {
    seq(|ls|, i requires 0 <= i < |ls| => FlipLabel(ls[i]))
  }

  lemma StepFlips(s: System, l: Label)
    ensures Step(Flip(s), FlipLabel(l)) == Flip(Step(s, l))
  {
    hide Act, Consumed, StepA;
    assert Flip(Flip(s)) == s;
  }

  lemma BeginFlips(u: Setup)
    ensures Begin(FlipSetup(u)) == Flip(Begin(u))
  {
    hide StartSession;
  }

  /** Running the mirrored labels from the mirrored start gives the mirrored system. */
  lemma {:induction false} RunFlips(u: Setup, ls: seq<Label>)
    ensures Run(Begin(FlipSetup(u)), FlipLabels(ls)) == Flip(Run(Begin(u), ls))
    decreases |ls|
  {
    hide Step, Begin;
    BeginFlips(u);
    if ls != [] {
      var n := |ls| - 1;
      assert FlipLabels(ls)[..n] == FlipLabels(ls[..n]);
      RunFlips(u, ls[..n]);
      StepFlips(Run(Begin(u), ls[..n]), ls[n]);
    }
  }
}
