/** Whole runs of the address manager. */
module AddrRuns {
  import opened AddrState
  import opened AddrCheck
  import opened AddrDisk
  import opened AddrRestore
  import opened AddrManager

  /** What is done to a manager; clocks and random choices are part of it. */
  datatype Op =
    | Add(addr: Address, source: NetAddr, nTimePenalty: int, nNow: int, nDraw: nat)
    | Good(service: Service, nTime: int, nRnd: int)
    | Attempt(service: Service, nTime: int)
    | Connected(service: Service, nTime: int)
    | GetAddr(nNow: int)
  {
    predicate Timely() {
      match this
      case Good(_, nTime, nRnd) => 0 < nTime && 0 <= nRnd < NEW_BUCKET_COUNT
      case Attempt(_, nTime) => 0 <= nTime
      case _ => true
    }
  }

  method Apply(m: AddrMan, op: Op)
    requires m.Valid() && op.Timely()
    modifies m, m.vvTried, m.vvNew
    ensures m.Valid() && m.nKey == old(m.nKey)
  {
    hide AddrMan.Valid;
    match op
    case Add(addr, source, nTimePenalty, nNow, nDraw) =>
      var fNew := m.Add_(addr, source, nTimePenalty, nNow, nDraw);
    case Good(service, nTime, nRnd) => m.Good_(service, nTime, nRnd);
    case Attempt(service, nTime) => m.Attempt_(service, nTime);
    case Connected(service, nTime) => m.Connected_(service, nTime);
    case GetAddr(nNow) =>
      ghost var n;
      var vAddr;
      vAddr, n := m.GetAddr_(nNow);
  }

  method RunAll(env: Env, nRandomKey: int, ops: seq<Op>) returns (m: AddrMan)
    requires forall i :: 0 <= i < |ops| ==> ops[i].Timely()
    ensures m.Valid() && m.env == env && m.nKey == nRandomKey && fresh(m) && fresh(m.vvTried) && fresh(m.vvNew)
  {
    hide AddrMan.Valid;
    m := new AddrMan(env, nRandomKey);
    for i := 0 to |ops|
      invariant m.Valid() && m.nKey == nRandomKey
    {
      Apply(m, ops[i]);
    }
  }

  /** Writes a manager and reads it into a fresh one. */
  method Copied(m: AddrMan, nRandomKey: int) returns (ok: bool, again: AddrMan)
    requires m.Valid()
    ensures fresh(again) && fresh(again.vvTried) && fresh(again.vvNew)
    ensures ok && again.Valid() && again.nKey == m.nKey && Restored(m.AsSaved(), again.AsSaved())
  {
    hide AddrMan.Valid, Encoded, Sound, Restored, AddrMan.AsSaved;
    var s := m.Serialize();
    again := new AddrMan(m.env, nRandomKey);
    IsSound(m);
    SizesFixed(again);
    ok := again.Unserialize(s, nRandomKey, m.AsSaved());
    KeyRestored(m, again);
  }

  lemma IsSound(m: AddrMan)
    requires m.Valid()
    ensures m.AsSaved().nIdCount == m.nIdCount >= 0 && Sound(m.env, m.AsSaved())
  {
    hide Consistent, Counted;
    ReadyToCheck(m);
    MirrorsBounds(m.vvNew, m.news, NEW_BUCKET_COUNT);
  }

  lemma SizesFixed(m: AddrMan)
    requires m.Valid()
    ensures m.Dimensioned()
  {
    hide Consistent, Counted;
  }

  lemma KeyRestored(m: AddrMan, again: AddrMan)
    requires m.nIdCount >= 0 && Restored(m.AsSaved(), again.AsSaved())
    ensures again.nKey == m.nKey
  {
    hide Image, Order;
  }

  method Checked(m: AddrMan) returns (err: int)
    requires m.Valid() && m.nKey != 0
    modifies m`mapAddr
    ensures err == 0 && m.Valid()
  {
    hide AddrMan.Valid, Passes;
    ReadyToCheck(m);
    err := m.Check_();
  }

  lemma ReadyToCheck(m: AddrMan)
    requires m.Valid()
    ensures m.Shaped() && 0 <= m.nIdCount && forall id :: id in m.mapInfo ==> 0 <= id < m.nIdCount
  {
  }

  /** From a fresh manager, after any run, the check finds nothing, and neither does it after
      the manager was written and read back. */
  method CheckedAfterRun(env: Env, nRandomKey: int, nOtherKey: int, ops: seq<Op>)
      returns (err: int, ok: bool, errAgain: int)
    requires nRandomKey != 0 && forall i :: 0 <= i < |ops| ==> ops[i].Timely()
    ensures err == 0 && ok && errAgain == 0
  {
    hide AddrMan.Valid, Restored, AddrMan.AsSaved;
    var m := RunAll(env, nRandomKey, ops);
    err := Checked(m);
    var again;
    ok, again := Copied(m, nOtherKey);
    errAgain := Checked(again);
  }
}
