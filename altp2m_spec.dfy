/*
 * Reference definitions of what the handlers in xen/arch/arm/hvm.c compute:
 * for each hypercall, the status returned, the record copied back to the
 * guest, the domain's state afterwards and the calls made into the
 * collaborators (domain lookup, the p2m layer, per-vCPU altp2m bookkeeping,
 * the vm_event monitor), in the order they are made.
 */
module Altp2mSpec {
  import opened XenPublic

  /** How do_altp2m_op and do_hvm_op find the domain they act on. */
  datatype LookupTarget = CurrentDomain | DomainById(domid: nat)

  /** A call into a collaborator, as it appears in the trace of calls. */
  datatype Event =
    | RcuLookup(target: LookupTarget, found: bool)   // rcu_lock_current_domain / rcu_lock_domain_by_any_id
    | RcuUnlock                                     // rcu_unlock_domain
    | P2mInitAltp2mById(view: nat)                  // p2m_init_altp2m_by_id
    | P2mInitNextAltp2m                             // p2m_init_next_altp2m
    | P2mFlushAltp2m                                // p2m_flush_altp2m
    | P2mSwitchDomainAltp2m(view: nat)              // p2m_switch_domain_altp2m_by_id
    | P2mSetMemAccess(gfn: nat, access: nat, view: nat)  // p2m_set_mem_access
    | VcpuInitialise(vcpu: nat)                     // altp2m_vcpu_initialise
    | VcpuDestroy(vcpu: nat)                        // altp2m_vcpu_destroy
    | MonitorGuestRequest                           // vm_event_monitor_guest_request

  /**
   * What the collaborators answer during one hypercall: whether the domain
   * lookup succeeds, the XSM hook's status, the status of the p2m function
   * called, and, when the p2m layer builds a table, the view id it picks and
   * the VTTBR of the new table.
   */
  datatype Env = Env(found: bool, xsmRc: int, p2mRc: int, newView: nat, newVttbr: uint64)

  /**
   * The state of the domain the hypercalls act on: the altp2m_active flag,
   * the parameter table, each vCPU's altp2m index (None: no view bound),
   * the alternate tables the p2m layer holds (view id to VTTBR) and the
   * VTTBR of the host p2m.
   */
  datatype DomainState = DomainState(
    active: bool,
    params: seq<uint64>,
    p2mIdx: seq<Option<nat>>,
    altp2m: map<nat, uint64>,
    hostVttbr: uint64)

  /** The parameter table has its fixed size. */
  predicate WellShaped(s: DomainState)
  {
    |s.params| == NrParams
  }

  /**
   * The invariant the control plane keeps: a vCPU is bound only while the
   * domain is active and only to a view the p2m layer holds, and an
   * inactive domain holds no alternate view.
   */
  predicate Consistent(s: DomainState)
  {
    WellShaped(s) &&
    (forall v :: 0 <= v < |s.p2mIdx| && s.p2mIdx[v].Some? ==> s.active && s.p2mIdx[v].value in s.altp2m) &&
    (!s.active ==> s.altp2m == map[])
  }

  /** Everything a hypercall produces. */
  datatype Outcome = Outcome(rc: int, copyBack: Option<GuestRecord>, post: DomainState, calls: seq<Event>)

  /** Every vCPU of an n-vCPU domain bound to the same index. */
  function AllBound(n: nat, idx: Option<nat>): (bs: seq<Option<nat>>)
    ensures |bs| == n && forall v :: 0 <= v < n ==> bs[v] == idx
  {
    seq(n, _ => idx)
  }

  /** The call made for one vCPU by the for_each_vcpu loop of set_domain_state. */
  function SweepEvent(v: nat, initialise: bool): Event
  {
    if initialise then VcpuInitialise(v) else VcpuDestroy(v)
  }

  /** The calls made by a for_each_vcpu loop over vCPUs 0 .. n-1. */
  function VcpuSweep(n: nat, initialise: bool): (es: seq<Event>)
    ensures |es| == n
    ensures forall v :: 0 <= v < n ==> es[v] == SweepEvent(v, initialise)
  {
    if n == 0 then [] else VcpuSweep(n - 1, initialise) + [SweepEvent(n - 1, initialise)]
  }

  /** Everything before the lookup of do_altp2m_op: availability, copy-in, structure. */
  predicate RejectedBeforeLookup(supported: bool, arg: GuestArg): (r: bool)
    ensures !r ==> supported && arg.GuestBuffer? && arg.asAltp2m.Some? && DecodeCmd(arg.asAltp2m.value.cmd).Some?
  {
    !supported || arg.NullHandle? || arg.asAltp2m.None? || !WellFormed(arg.asAltp2m.value)
  }

  /** The commands that need an active domain. */
  predicate NeedsActive(c: Cmd): (r: bool)
    ensures r <==> CmdNumber(c) >= 3
  {
    c != GetDomainState && c != SetDomainState
  }

  /** The lookup a command makes: vcpu_enable_notify acts on the caller's own domain. */
  function TargetOf(a: Altp2mOpRecord): (t: LookupTarget)
    ensures t.CurrentDomain? <==> DecodeCmd(a.cmd) == Some(VcpuEnableNotify)
    ensures t.DomainById? ==> t.domid == a.domain
  {
    if a.cmd != CmdNumber(VcpuEnableNotify) then DomainById(a.domain) else CurrentDomain
  }

  /** set_domain_state once the altp2m parameter has been found set. */
  function SetDomainStateSpec(s: DomainState, requested: bool, env: Env): (o: Outcome)
    ensures o.post.params == s.params && |o.post.p2mIdx| == |s.p2mIdx| && o.post.hostVttbr == s.hostVttbr
    ensures o.post.active == requested && o.copyBack == None
  {
    var n := |s.p2mIdx|;
    if requested == s.active then
      Outcome(0, None, s, [])
    else if s.active then
      Outcome(0, None, s.(active := false, p2mIdx := AllBound(n, None), altp2m := map[]),
              VcpuSweep(n, false) + [P2mFlushAltp2m])
    else if env.p2mRc != 0 then
      Outcome(env.p2mRc, None, s.(active := true), [P2mInitAltp2mById(0)])
    else
      Outcome(0, None, s.(active := true, p2mIdx := AllBound(n, Some(0)), altp2m := s.altp2m[0 := env.newVttbr]),
              [P2mInitAltp2mById(0)] + VcpuSweep(n, true))
  }

  /**
   * The domain after p2m_switch_domain_altp2m_by_id answered `rc`: when it
   * succeeds on a view the p2m layer holds, every vCPU is bound to that view;
   * otherwise nothing changes.
   */
  function SwitchSpec(s: DomainState, view: nat, rc: int): (t: DomainState)
    ensures t.active == s.active && t.params == s.params && t.altp2m == s.altp2m && t.hostVttbr == s.hostVttbr
    ensures |t.p2mIdx| == |s.p2mIdx|
  {
    if rc == 0 && view in s.altp2m then s.(p2mIdx := AllBound(|s.p2mIdx|, Some(view))) else s
  }

  /** One altp2m command, run once every gate of do_altp2m_op has passed. */
  function CommandSpec(cmd: Cmd, a: Altp2mOpRecord, arg: GuestArg, env: Env, s: DomainState): (o: Outcome)
    requires WellShaped(s)
    ensures o.post.params == s.params && |o.post.p2mIdx| == |s.p2mIdx| && o.post.hostVttbr == s.hostVttbr
  {
    match cmd
    case GetDomainState =>
      if s.params[ParamAltp2m] == 0 then Outcome(-EINVAL, None, s, [])
      else
        var back := a.(u := a.u.(state := if s.active then 1 else 0));
        Outcome(CopyOutRc(arg), Some(Altp2mRecord(back)), s, [])
    case SetDomainState =>
      if s.params[ParamAltp2m] == 0 then Outcome(-EINVAL, None, s, [])
      else SetDomainStateSpec(s, a.u.state != 0, env)
    case VcpuEnableNotify =>
      Outcome(0, None, s, [])
    case CreateP2m =>
      if env.p2mRc != 0 then Outcome(env.p2mRc, None, s, [P2mInitNextAltp2m])
      else
        var back := a.(u := a.u.(view := env.newView));
        Outcome(CopyOutRc(arg), Some(Altp2mRecord(back)),
                s.(altp2m := s.altp2m[env.newView := env.newVttbr]), [P2mInitNextAltp2m])
    case DestroyP2m =>
      Outcome(0, None, s, [])
    case SwitchP2m =>
      Outcome(env.p2mRc, None, SwitchSpec(s, a.u.view, env.p2mRc), [P2mSwitchDomainAltp2m(a.u.view)])
    case SetMemAccess =>
      if a.u.pad != 0 then Outcome(-EINVAL, None, s, [])
      else Outcome(env.p2mRc, None, s, [P2mSetMemAccess(a.u.gfn, a.u.access, a.u.view)])
    case ChangeGfn =>
      Outcome(0, None, s, [])
  }

  /** do_altp2m_op: the checks in their order, the domain lookup and release, then the command. */
  function Altp2mOpSpec(supported: bool, arg: GuestArg, env: Env, s: DomainState): (o: Outcome)
    requires WellShaped(s)
    ensures o.post.params == s.params && |o.post.p2mIdx| == |s.p2mIdx| && o.post.hostVttbr == s.hostVttbr
  {
    if !supported then Outcome(-EOPNOTSUPP, None, s, [])
    else if arg.NullHandle? || arg.asAltp2m.None? then Outcome(-EFAULT, None, s, [])
    else
      var a := arg.asAltp2m.value;
      if !WellFormed(a) then Outcome(-EINVAL, None, s, [])
      else
        var cmd := DecodeCmd(a.cmd).value;
        var lookup := RcuLookup(TargetOf(a), env.found);
        if !env.found then Outcome(-ESRCH, None, s, [lookup])
        else if NeedsActive(cmd) && !s.active then Outcome(-EOPNOTSUPP, None, s, [lookup, RcuUnlock])
        else if env.xsmRc != 0 then Outcome(env.xsmRc, None, s, [lookup, RcuUnlock])
        else
          var c := CommandSpec(cmd, a, arg, env, s);
          Outcome(c.rc, c.copyBack, c.post, [lookup] + c.calls + [RcuUnlock])
  }

  /** HVMOP_set_param and HVMOP_get_param. */
  function ParamOpSpec(isSet: bool, arg: GuestArg, env: Env, s: DomainState): (o: Outcome)
    requires WellShaped(s)
    ensures o.post.active == s.active && o.post.p2mIdx == s.p2mIdx && o.post.altp2m == s.altp2m
    ensures |o.post.params| == |s.params| && o.post.hostVttbr == s.hostVttbr
  {
    if arg.NullHandle? || arg.asParam.None? then Outcome(-EFAULT, None, s, [])
    else
      var a := arg.asParam.value;
      if a.index >= NrParams then Outcome(-EINVAL, None, s, [])
      else
        var lookup := RcuLookup(DomainById(a.domid), env.found);
        if !env.found then Outcome(-ESRCH, None, s, [lookup])
        else if env.xsmRc != 0 then Outcome(env.xsmRc, None, s, [lookup, RcuUnlock])
        else if isSet then Outcome(0, None, s.(params := s.params[a.index := a.value]), [lookup, RcuUnlock])
        else Outcome(CopyOutRc(arg), Some(ParamRecord(a.(value := s.params[a.index]))), s, [lookup, RcuUnlock])
  }

  /** do_hvm_op: routes an operation number to its handler. */
  function HvmOpSpec(supported: bool, op: nat, arg: GuestArg, env: Env, s: DomainState): (o: Outcome)
    requires WellShaped(s)
    ensures WellShaped(o.post) && |o.post.p2mIdx| == |s.p2mIdx| && o.post.hostVttbr == s.hostVttbr
  {
    if op == OpSetParam || op == OpGetParam then ParamOpSpec(op == OpSetParam, arg, env, s)
    else if op == OpGuestRequestVmEvent then
      if arg.NullHandle? then Outcome(0, None, s, [MonitorGuestRequest]) else Outcome(-EINVAL, None, s, [])
    else if op == OpAltp2m then Altp2mOpSpec(supported, arg, env, s)
    else Outcome(-ENOSYS, None, s, [])
  }

  /** p2m_get_altp2m: the VTTBR of the alternate table a vCPU is bound to, if that table exists. */
  function AltP2mOf(s: DomainState, v: nat): (p: Option<uint64>)
    requires v < |s.p2mIdx|
    ensures p.Some? <==> s.p2mIdx[v].Some? && s.p2mIdx[v].value in s.altp2m
    ensures p.Some? ==> p.value in s.altp2m.Values
  {
    match s.p2mIdx[v]
    case None => None
    case Some(i) => if i in s.altp2m then Some(s.altp2m[i]) else None
  }

  /** altp2m_vcpu_update_p2m: the VTTBR installed when vCPU v resumes. */
  function ResumeVttbr(s: DomainState, v: nat): (vttbr: uint64)
    requires v < |s.p2mIdx|
    ensures !s.active || s.p2mIdx[v].None? ==> vttbr == s.hostVttbr
  {
    var alt := if s.active then AltP2mOf(s, v) else None;
    if alt.Some? then alt.value else s.hostVttbr
  }

  /** One hypercall as issued by a caller, with what the collaborators answer. */
  datatype Hypercall = Hypercall(op: nat, arg: GuestArg, env: Env)

  /** The domain's state after a sequence of hypercalls. */
  function Run(supported: bool, s: DomainState, hs: seq<Hypercall>): (t: DomainState)
    requires WellShaped(s)
    ensures WellShaped(t) && |t.p2mIdx| == |s.p2mIdx| && t.hostVttbr == s.hostVttbr
    decreases |hs|
  {
    if hs == [] then s
    else Run(supported, HvmOpSpec(supported, hs[0].op, hs[0].arg, hs[0].env, s).post, hs[1..])
  }

  /** Successful domain lookups in a trace of calls. */
  function Acquired(t: seq<Event>): (n: nat)
    ensures n <= |t|
  {
    if t == [] then 0 else (if t[0].RcuLookup? && t[0].found then 1 else 0) + Acquired(t[1..])
  }

  /** Domain releases in a trace of calls. */
  function Released(t: seq<Event>): (n: nat)
    ensures n <= |t|
  {
    if t == [] then 0 else (if t[0].RcuUnlock? then 1 else 0) + Released(t[1..])
  }
}
