/*
 * What xen/arch/arm/hvm.c promises, proved about the reference definitions
 * of module Altp2mSpec: the order of the checks in do_altp2m_op, the
 * release of every domain handle taken, the behaviour of each altp2m
 * command, the parameter operations and the dispatcher, the order of the
 * calls in the set_domain_state transition, the table chosen on vCPU resume,
 * and the invariant the whole control plane keeps.
 */
module Altp2mProperties {
  import opened XenPublic
  import opened Altp2mSpec

  // ---- do_altp2m_op: the checks and the domain handle ----

  /**
   * Availability, the copy from the guest and the structure of the record
   * are checked in this order, and all of them before any domain is looked
   * up: a hypercall rejected by one of them makes no call at all and changes
   * nothing, and one that passes them always looks a domain up.
   */
  lemma ChecksPrecedeLookup(supported: bool, arg: GuestArg, env: Env, s: DomainState)
    requires WellShaped(s)
    ensures var o := Altp2mOpSpec(supported, arg, env, s);
      (o.calls == [] <==> RejectedBeforeLookup(supported, arg)) &&
      (RejectedBeforeLookup(supported, arg) ==> o.post == s && o.copyBack == None) &&
      (!supported ==> o.rc == -EOPNOTSUPP) &&
      (supported && (arg.NullHandle? || arg.asAltp2m.None?) ==> o.rc == -EFAULT) &&
      (supported && arg.GuestBuffer? && arg.asAltp2m.Some? && !WellFormed(arg.asAltp2m.value) ==> o.rc == -EINVAL)
  {
  }

  /**
   * Once the record is accepted: vcpu_enable_notify looks up the calling
   * domain and every other command looks its domain up by id; a failed
   * lookup gives -ESRCH; a command other than get/set_domain_state on an
   * inactive domain gives -EOPNOTSUPP, and an XSM denial gives the hook's own
   * status, both without any change or call into the p2m layer.
   */
  lemma LookupAndGates(supported: bool, arg: GuestArg, env: Env, s: DomainState)
    requires WellShaped(s) && !RejectedBeforeLookup(supported, arg)
    ensures var a := arg.asAltp2m.value;
      var cmd := DecodeCmd(a.cmd).value;
      var o := Altp2mOpSpec(supported, arg, env, s);
      var lookup := RcuLookup(if cmd == VcpuEnableNotify then CurrentDomain else DomainById(a.domain), env.found);
      |o.calls| >= 1 && o.calls[0] == lookup &&
      (!env.found ==> o.rc == -ESRCH && o.calls == [lookup] && o.post == s && o.copyBack == None) &&
      (env.found && NeedsActive(cmd) && !s.active ==>
        o.rc == -EOPNOTSUPP && o.calls == [lookup, RcuUnlock] && o.post == s && o.copyBack == None) &&
      (env.found && !(NeedsActive(cmd) && !s.active) && env.xsmRc != 0 ==>
        o.rc == env.xsmRc && o.calls == [lookup, RcuUnlock] && o.post == s && o.copyBack == None)
  {
    var a := arg.asAltp2m.value;
    assert a.cmd == CmdNumber(DecodeCmd(a.cmd).value);
  }

  /**
   * When every gate passes, the command runs between the lookup and the
   * release of the domain, and its status, copy-back and effect are those of
   * the hypercall.
   */
  lemma CommandRunsUnderHandle(supported: bool, arg: GuestArg, env: Env, s: DomainState)
    requires WellShaped(s) && !RejectedBeforeLookup(supported, arg) && env.found && env.xsmRc == 0
    requires var cmd := DecodeCmd(arg.asAltp2m.value.cmd).value; NeedsActive(cmd) ==> s.active
    ensures var a := arg.asAltp2m.value;
      var c := CommandSpec(DecodeCmd(a.cmd).value, a, arg, env, s);
      var o := Altp2mOpSpec(supported, arg, env, s);
      o.rc == c.rc && o.copyBack == c.copyBack && o.post == c.post &&
      o.calls == [RcuLookup(TargetOf(a), true)] + c.calls + [RcuUnlock]
  {
  }

  /** Handle counting distributes over concatenated traces. */
  lemma {:induction false} CountsAppend(t1: seq<Event>, t2: seq<Event>)
    ensures Acquired(t1 + t2) == Acquired(t1) + Acquired(t2)
    ensures Released(t1 + t2) == Released(t1) + Released(t2)
  {
    if t1 != [] {
      CountsAppend(t1[1..], t2);
      assert (t1 + t2)[1..] == t1[1..] + t2;
    } else {
      assert t1 + t2 == t2;
    }
  }

  /** The for_each_vcpu loops take and release no domain handle. */
  lemma {:induction false} SweepTakesNoHandle(n: nat, initialise: bool)
    ensures Acquired(VcpuSweep(n, initialise)) == 0 && Released(VcpuSweep(n, initialise)) == 0
  {
    if n > 0 {
      SweepTakesNoHandle(n - 1, initialise);
      CountsAppend(VcpuSweep(n - 1, initialise), [SweepEvent(n - 1, initialise)]);
    }
  }

  /** No altp2m command takes or releases a domain handle itself. */
  lemma CommandTakesNoHandle(cmd: Cmd, a: Altp2mOpRecord, arg: GuestArg, env: Env, s: DomainState)
    requires WellShaped(s)
    ensures var c := CommandSpec(cmd, a, arg, env, s);
      Acquired(c.calls) == 0 && Released(c.calls) == 0
  {
    var n := |s.p2mIdx|;
    SweepTakesNoHandle(n, true);
    SweepTakesNoHandle(n, false);
    CountsAppend([P2mInitAltp2mById(0)], VcpuSweep(n, true));
    CountsAppend(VcpuSweep(n, false), [P2mFlushAltp2m]);
  }

  /**
   * Every hypercall releases each domain handle it takes exactly once and
   * takes at most one; when it takes one, the release is its last call.
   */
  lemma HandlesReleasedOnce(supported: bool, op: nat, arg: GuestArg, env: Env, s: DomainState)
    requires WellShaped(s)
    ensures var o := HvmOpSpec(supported, op, arg, env, s);
      Acquired(o.calls) == Released(o.calls) <= 1 &&
      (Acquired(o.calls) == 1 ==> o.calls[|o.calls| - 1] == RcuUnlock)
  {
    if op == OpAltp2m && !RejectedBeforeLookup(supported, arg) && env.found
    {
      var a := arg.asAltp2m.value;
      var cmd := DecodeCmd(a.cmd).value;
      var lookup := RcuLookup(TargetOf(a), true);
      if !(NeedsActive(cmd) && !s.active) && env.xsmRc == 0 {
        var c := CommandSpec(cmd, a, arg, env, s);
        CommandTakesNoHandle(cmd, a, arg, env, s);
        CountsAppend([lookup], c.calls);
        CountsAppend([lookup] + c.calls, [RcuUnlock]);
      } else {
        CountsAppend([lookup], [RcuUnlock]);
      }
    } else if (op == OpSetParam || op == OpGetParam) && arg.GuestBuffer? && arg.asParam.Some? &&
              arg.asParam.value.index < NrParams && env.found
    {
      CountsAppend([RcuLookup(DomainById(arg.asParam.value.domid), true)], [RcuUnlock]);
    }
  }

  // ---- the altp2m commands ----

  /** get_domain_state and set_domain_state refuse a domain whose altp2m parameter is zero. */
  lemma DomainStateNeedsAltp2mParam(cmd: Cmd, a: Altp2mOpRecord, arg: GuestArg, env: Env, s: DomainState)
    requires WellShaped(s) && (cmd == GetDomainState || cmd == SetDomainState) && s.params[ParamAltp2m] == 0
    ensures var c := CommandSpec(cmd, a, arg, env, s);
      c.rc == -EINVAL && c.post == s && c.calls == [] && c.copyBack == None
  {
  }

  /**
   * get_domain_state copies the record back with its state field set
   * exactly when the domain is active, and succeeds exactly when the copy
   * does.
   */
  lemma GetDomainStateReportsActive(a: Altp2mOpRecord, arg: GuestArg, env: Env, s: DomainState)
    requires WellShaped(s) && s.params[ParamAltp2m] != 0
    ensures var c := CommandSpec(GetDomainState, a, arg, env, s);
      c.post == s && c.calls == [] &&
      c.copyBack.Some? && c.copyBack.value.Altp2mRecord? &&
      (c.copyBack.value.op.u.state != 0 <==> s.active) &&
      c.copyBack.value.op == a.(u := a.u.(state := c.copyBack.value.op.u.state)) &&
      (c.rc == 0 <==> arg.GuestBuffer? && arg.writable) && (c.rc != 0 ==> c.rc == -EFAULT)
  {
  }

  /** Requesting the state the domain is already in succeeds and does nothing. */
  lemma SetSameStateIsNoOp(a: Altp2mOpRecord, arg: GuestArg, env: Env, s: DomainState)
    requires WellShaped(s) && s.params[ParamAltp2m] != 0 && (a.u.state != 0) == s.active
    ensures var c := CommandSpec(SetDomainState, a, arg, env, s);
      c.rc == 0 && c.post == s && c.calls == [] && c.copyBack == None
  {
  }

  /**
   * Activation builds view 0 before touching any vCPU, then initialises
   * vCPUs 0 .. n-1 in order and binds each to view 0; if building view 0
   * fails its status is returned and no vCPU is touched, but the flag stays
   * set, as the flag is written before the p2m layer is called.
   */
  lemma ActivationBuildsViewZeroFirst(a: Altp2mOpRecord, arg: GuestArg, env: Env, s: DomainState)
    requires WellShaped(s) && s.params[ParamAltp2m] != 0 && a.u.state != 0 && !s.active
    ensures var c := CommandSpec(SetDomainState, a, arg, env, s);
      var n := |s.p2mIdx|;
      c.rc == env.p2mRc && c.post.active &&
      |c.calls| == (if env.p2mRc == 0 then n + 1 else 1) &&
      c.calls[0] == P2mInitAltp2mById(0) &&
      (forall k :: 1 <= k < |c.calls| ==> c.calls[k] == VcpuInitialise(k - 1)) &&
      (env.p2mRc == 0 ==> 0 in c.post.altp2m && forall v :: 0 <= v < n ==> c.post.p2mIdx[v] == Some(0)) &&
      (env.p2mRc != 0 ==> c.post.p2mIdx == s.p2mIdx && c.post.altp2m == s.altp2m)
  {
    var c := CommandSpec(SetDomainState, a, arg, env, s);
    var n := |s.p2mIdx|;
    if env.p2mRc == 0 {
      assert c.calls == [P2mInitAltp2mById(0)] + VcpuSweep(n, true);
      forall k | 1 <= k < |c.calls| ensures c.calls[k] == VcpuInitialise(k - 1) {
        assert c.calls[k] == VcpuSweep(n, true)[k - 1];
      }
    }
  }

  /**
   * Deactivation unbinds vCPUs 0 .. n-1 in order and only then flushes the
   * alternate tables; afterwards no vCPU is bound and no view is left.
   */
  lemma DeactivationUnbindsBeforeFlush(a: Altp2mOpRecord, arg: GuestArg, env: Env, s: DomainState)
    requires WellShaped(s) && s.params[ParamAltp2m] != 0 && a.u.state == 0 && s.active
    ensures var c := CommandSpec(SetDomainState, a, arg, env, s);
      var n := |s.p2mIdx|;
      c.rc == 0 && !c.post.active &&
      |c.calls| == n + 1 &&
      (forall k :: 0 <= k < n ==> c.calls[k] == VcpuDestroy(k)) &&
      c.calls[n] == P2mFlushAltp2m &&
      (forall v :: 0 <= v < n ==> c.post.p2mIdx[v] == None) &&
      c.post.altp2m == map[]
  {
    var c := CommandSpec(SetDomainState, a, arg, env, s);
    var n := |s.p2mIdx|;
    assert c.calls == VcpuSweep(n, false) + [P2mFlushAltp2m];
  }

  /** vcpu_enable_notify, destroy_p2m and change_gfn succeed and do nothing. */
  lemma StubCommandsDoNothing(cmd: Cmd, a: Altp2mOpRecord, arg: GuestArg, env: Env, s: DomainState)
    requires WellShaped(s) && (cmd == VcpuEnableNotify || cmd == DestroyP2m || cmd == ChangeGfn)
    ensures var c := CommandSpec(cmd, a, arg, env, s);
      c.rc == 0 && c.post == s && c.calls == [] && c.copyBack == None
  {
  }

  /**
   * create_p2m asks the p2m layer for a new view and copies the record back,
   * carrying the new view id, only when that succeeds.
   */
  lemma CreateP2mCopiesBackOnSuccess(a: Altp2mOpRecord, arg: GuestArg, env: Env, s: DomainState)
    requires WellShaped(s)
    ensures var c := CommandSpec(CreateP2m, a, arg, env, s);
      c.calls == [P2mInitNextAltp2m] &&
      (c.copyBack.Some? <==> env.p2mRc == 0) &&
      (env.p2mRc != 0 ==> c.rc == env.p2mRc && c.post == s) &&
      (env.p2mRc == 0 ==>
        c.copyBack == Some(Altp2mRecord(a.(u := a.u.(view := env.newView)))) &&
        env.newView in c.post.altp2m && c.rc == CopyOutRc(arg))
  {
  }

  /**
   * switch_p2m returns the p2m layer's status for the requested view; when
   * that is success on a view the p2m layer holds, every vCPU is now bound to
   * it, and otherwise no binding changes. No view, flag or parameter changes.
   */
  lemma SwitchP2mRebindsVcpus(a: Altp2mOpRecord, arg: GuestArg, env: Env, s: DomainState)
    requires WellShaped(s)
    ensures var c := CommandSpec(SwitchP2m, a, arg, env, s);
      c.rc == env.p2mRc && c.calls == [P2mSwitchDomainAltp2m(a.u.view)] && c.copyBack == None &&
      c.post.active == s.active && c.post.params == s.params && c.post.altp2m == s.altp2m &&
      |c.post.p2mIdx| == |s.p2mIdx| &&
      (env.p2mRc == 0 && a.u.view in s.altp2m ==> forall v :: 0 <= v < |s.p2mIdx| ==> c.post.p2mIdx[v] == Some(a.u.view)) &&
      (!(env.p2mRc == 0 && a.u.view in s.altp2m) ==> c.post == s)
  {
  }

  /** After a successful switch to a held view, every vCPU resumes on that view's table. */
  lemma ResumeAfterSwitch(a: Altp2mOpRecord, arg: GuestArg, env: Env, s: DomainState, v: nat)
    requires Consistent(s) && s.active && env.p2mRc == 0 && a.u.view in s.altp2m
    requires v < |s.p2mIdx|
    ensures ResumeVttbr(CommandSpec(SwitchP2m, a, arg, env, s).post, v) == s.altp2m[a.u.view]
  {
  }

  /** set_mem_access with a non-zero pad is refused before the p2m layer is called. */
  lemma SetMemAccessChecksPad(a: Altp2mOpRecord, arg: GuestArg, env: Env, s: DomainState)
    requires WellShaped(s)
    ensures var c := CommandSpec(SetMemAccess, a, arg, env, s);
      c.post == s && c.copyBack == None &&
      (a.u.pad != 0 ==> c.rc == -EINVAL && c.calls == []) &&
      (a.u.pad == 0 ==> c.rc == env.p2mRc && c.calls == [P2mSetMemAccess(a.u.gfn, a.u.access, a.u.view)])
  {
  }

  // ---- do_hvm_op: parameters and routing ----

  /**
   * get_param and set_param: a failed copy gives -EFAULT and an index
   * outside the table gives -EINVAL, both before any lookup; a failed
   * lookup gives -ESRCH and an XSM denial the hook's status, with no change.
   */
  lemma ParamChecks(supported: bool, op: nat, arg: GuestArg, env: Env, s: DomainState)
    requires WellShaped(s) && (op == OpSetParam || op == OpGetParam)
    ensures var o := HvmOpSpec(supported, op, arg, env, s);
      (arg.NullHandle? || arg.asParam.None? ==> o.rc == -EFAULT && o.calls == [] && o.post == s) &&
      (arg.GuestBuffer? && arg.asParam.Some? ==>
        var p := arg.asParam.value;
        (p.index >= NrParams ==> o.rc == -EINVAL && o.calls == [] && o.post == s) &&
        (p.index < NrParams && !env.found ==>
          o.rc == -ESRCH && o.calls == [RcuLookup(DomainById(p.domid), false)] && o.post == s) &&
        (p.index < NrParams && env.found && env.xsmRc != 0 ==>
          o.rc == env.xsmRc && o.calls == [RcuLookup(DomainById(p.domid), true), RcuUnlock] && o.post == s))
  {
  }

  /** set_param stores the value at its index, and changes nothing else. */
  lemma SetParamWritesOnlyIndex(supported: bool, arg: GuestArg, env: Env, s: DomainState)
    requires WellShaped(s) && arg.GuestBuffer? && arg.asParam.Some? && arg.asParam.value.index < NrParams
    requires env.found && env.xsmRc == 0
    ensures var p := arg.asParam.value;
      var o := HvmOpSpec(supported, OpSetParam, arg, env, s);
      o.rc == 0 && o.copyBack == None &&
      o.post.params[p.index] == p.value &&
      (forall i :: 0 <= i < NrParams && i != p.index ==> o.post.params[i] == s.params[i]) &&
      o.post.active == s.active && o.post.p2mIdx == s.p2mIdx && o.post.altp2m == s.altp2m
  {
  }

  /** get_param copies back the stored value, failing only if the copy does. */
  lemma GetParamReturnsStored(supported: bool, arg: GuestArg, env: Env, s: DomainState)
    requires WellShaped(s) && arg.GuestBuffer? && arg.asParam.Some? && arg.asParam.value.index < NrParams
    requires env.found && env.xsmRc == 0
    ensures var p := arg.asParam.value;
      var o := HvmOpSpec(supported, OpGetParam, arg, env, s);
      o.post == s && o.copyBack.Some? && o.copyBack.value.ParamRecord? &&
      o.copyBack.value.param.value == s.params[p.index] &&
      o.copyBack.value.param.index == p.index && o.copyBack.value.param.domid == p.domid &&
      (o.rc == 0 <==> arg.writable) && (o.rc != 0 ==> o.rc == -EFAULT)
  {
  }

  /** The guest request takes no payload: a non-null handle gives -EINVAL and no notification. */
  lemma GuestRequestTakesNoPayload(supported: bool, arg: GuestArg, env: Env, s: DomainState)
    requires WellShaped(s)
    ensures var o := HvmOpSpec(supported, OpGuestRequestVmEvent, arg, env, s);
      o.post == s && o.copyBack == None &&
      (arg.NullHandle? ==> o.rc == 0 && o.calls == [MonitorGuestRequest]) &&
      (!arg.NullHandle? ==> o.rc == -EINVAL && o.calls == [])
  {
  }

  /** Any other operation number gives -ENOSYS and does nothing. */
  lemma UnknownOpNotImplemented(supported: bool, op: nat, arg: GuestArg, env: Env, s: DomainState)
    requires WellShaped(s)
    requires op != OpSetParam && op != OpGetParam && op != OpGuestRequestVmEvent && op != OpAltp2m
    ensures var o := HvmOpSpec(supported, op, arg, env, s);
      o.rc == -ENOSYS && o.post == s && o.calls == [] && o.copyBack == None
  {
  }

  // ---- the invariant ----

  /** The set_domain_state transition keeps the domain Consistent, also when it fails. */
  lemma SetDomainStateKeepsConsistent(s: DomainState, requested: bool, env: Env)
    requires Consistent(s)
    ensures Consistent(SetDomainStateSpec(s, requested, env).post)
  {
  }

  /** A command that passed the gates keeps the domain Consistent. */
  lemma CommandKeepsConsistent(cmd: Cmd, a: Altp2mOpRecord, arg: GuestArg, env: Env, s: DomainState)
    requires Consistent(s) && (NeedsActive(cmd) ==> s.active)
    ensures Consistent(CommandSpec(cmd, a, arg, env, s).post)
  {
    if cmd == SetDomainState && s.params[ParamAltp2m] != 0 {
      SetDomainStateKeepsConsistent(s, a.u.state != 0, env);
    }
  }

  /** do_altp2m_op keeps the domain Consistent, whatever it returns. */
  lemma Altp2mOpKeepsConsistent(supported: bool, arg: GuestArg, env: Env, s: DomainState)
    requires Consistent(s)
    ensures Consistent(Altp2mOpSpec(supported, arg, env, s).post)
  {
    if !RejectedBeforeLookup(supported, arg) && env.found {
      var a := arg.asAltp2m.value;
      var cmd := DecodeCmd(a.cmd).value;
      if !(NeedsActive(cmd) && !s.active) && env.xsmRc == 0 {
        CommandKeepsConsistent(cmd, a, arg, env, s);
      }
    }
  }

  /** do_hvm_op keeps the domain Consistent, whatever it returns. */
  lemma HvmOpKeepsConsistent(supported: bool, op: nat, arg: GuestArg, env: Env, s: DomainState)
    requires Consistent(s)
    ensures Consistent(HvmOpSpec(supported, op, arg, env, s).post)
  {
    if op == OpAltp2m {
      Altp2mOpKeepsConsistent(supported, arg, env, s);
    }
  }

  /** Any sequence of hypercalls keeps the domain Consistent. */
  lemma {:induction false} RunKeepsConsistent(supported: bool, s: DomainState, hs: seq<Hypercall>)
    requires Consistent(s)
    ensures Consistent(Run(supported, s, hs))
    decreases |hs|
  {
    if hs != [] {
      HvmOpKeepsConsistent(supported, hs[0].op, hs[0].arg, hs[0].env, s);
      RunKeepsConsistent(supported, HvmOpSpec(supported, hs[0].op, hs[0].arg, hs[0].env, s).post, hs[1..]);
    }
  }

  /** An inactive Consistent domain has no vCPU bound to any view. */
  lemma InactiveMeansUnbound(s: DomainState, v: nat)
    requires Consistent(s) && !s.active && v < |s.p2mIdx|
    ensures s.p2mIdx[v] == None
  {
  }

  /**
   * As written, a failed activation leaves the domain active with no
   * alternate view: "active implies view 0 exists" is not kept, though the
   * domain stays Consistent.
   */
  lemma FailedActivationLeavesNoView(a: Altp2mOpRecord, arg: GuestArg, env: Env, s: DomainState)
    requires Consistent(s) && s.params[ParamAltp2m] != 0 && a.u.state != 0 && !s.active && env.p2mRc != 0
    ensures var c := CommandSpec(SetDomainState, a, arg, env, s);
      c.rc == env.p2mRc && c.rc != 0 && c.post.active && c.post.altp2m == map[] && Consistent(c.post)
  {
  }

  // ---- the resume switch ----

  /**
   * On a Consistent domain the resume switch installs the table of the view
   * a vCPU is bound to, and the host table for an unbound vCPU or an
   * inactive domain.
   */
  lemma ResumeSelectsBoundView(s: DomainState, v: nat)
    requires Consistent(s) && v < |s.p2mIdx|
    ensures s.p2mIdx[v].Some? ==> ResumeVttbr(s, v) == s.altp2m[s.p2mIdx[v].value]
    ensures s.p2mIdx[v].None? ==> ResumeVttbr(s, v) == s.hostVttbr
    ensures !s.active ==> ResumeVttbr(s, v) == s.hostVttbr
  {
  }

  /** The installed table is always the host table or one the p2m layer holds. */
  lemma ResumeInstallsKnownTable(s: DomainState, v: nat)
    requires v < |s.p2mIdx|
    ensures ResumeVttbr(s, v) == s.hostVttbr || ResumeVttbr(s, v) in s.altp2m.Values
  {
    var r := ResumeVttbr(s, v);
    if r != s.hostVttbr {
      var i := s.p2mIdx[v].value;
      assert i in s.altp2m && s.altp2m[i] == r;
    }
  }

  /** After a successful activation every vCPU resumes on view 0's table. */
  lemma ResumeAfterActivation(a: Altp2mOpRecord, arg: GuestArg, env: Env, s: DomainState, v: nat)
    requires WellShaped(s) && s.params[ParamAltp2m] != 0 && a.u.state != 0 && !s.active && env.p2mRc == 0
    requires v < |s.p2mIdx|
    ensures ResumeVttbr(CommandSpec(SetDomainState, a, arg, env, s).post, v) == env.newVttbr
  {
  }

  /** After deactivation, or after a failed activation, every vCPU resumes on the host table. */
  lemma ResumeFallsBackToHost(a: Altp2mOpRecord, arg: GuestArg, env: Env, s: DomainState, v: nat)
    requires Consistent(s) && s.params[ParamAltp2m] != 0 && (a.u.state != 0) != s.active
    requires s.active || env.p2mRc != 0
    requires v < |s.p2mIdx|
    ensures ResumeVttbr(CommandSpec(SetDomainState, a, arg, env, s).post, v) == s.hostVttbr
  {
    if !s.active {
      InactiveMeansUnbound(s, v);
    }
  }

  // ---- end-to-end scenarios ----

  /** A two-vCPU domain with the altp2m parameter set, inactive, with no views. */
  function TwoVcpuDomain(host: uint64): (s: DomainState)
    ensures Consistent(s) && !s.active && s.params[ParamAltp2m] == 1 && |s.p2mIdx| == 2
  {
    DomainState(false, seq(NrParams, i => if i == ParamAltp2m then 1 else 0), AllBound(2, None), map[], host)
  }

  /** An altp2m record for a command, acting on domain 0, with the given state and view fields. */
  function Altp2mArg(cmd: Cmd, state: nat, view: nat): GuestArg
  {
    GuestBuffer(None, Some(Altp2mOpRecord(Altp2mInterfaceVersion, CmdNumber(cmd), 0, 0, 0, Altp2mUnion(state, view, 0, 0, 0))), true)
  }

  /**
   * Activation, a query, then deactivation on a two-vCPU domain: both vCPUs
   * end up bound to view 0, the query reports the domain active, and after
   * deactivation both are unbound and no view is left.
   */
  lemma ActivateQueryDeactivate(host: uint64, vttbr: uint64)
    ensures var env := Env(true, 0, 0, 0, vttbr);
      var o1 := HvmOpSpec(true, OpAltp2m, Altp2mArg(SetDomainState, 1, 0), env, TwoVcpuDomain(host));
      var o2 := HvmOpSpec(true, OpAltp2m, Altp2mArg(GetDomainState, 0, 0), env, o1.post);
      var o3 := HvmOpSpec(true, OpAltp2m, Altp2mArg(SetDomainState, 0, 0), env, o2.post);
      o1.rc == 0 && o1.post.p2mIdx == [Some(0), Some(0)] &&
      o2.rc == 0 && o2.copyBack.Some? && o2.copyBack.value.op.u.state == 1 &&
      o3.rc == 0 && o3.post.p2mIdx == [None, None] && o3.post.altp2m == map[] && !o3.post.active
  {
    var env := Env(true, 0, 0, 0, vttbr);
    var s0 := TwoVcpuDomain(host);
    var o1 := HvmOpSpec(true, OpAltp2m, Altp2mArg(SetDomainState, 1, 0), env, s0);
    assert o1.post.p2mIdx == AllBound(2, Some(0));
    var o2 := HvmOpSpec(true, OpAltp2m, Altp2mArg(GetDomainState, 0, 0), env, o1.post);
    var o3 := HvmOpSpec(true, OpAltp2m, Altp2mArg(SetDomainState, 0, 0), env, o2.post);
    assert o3.post.p2mIdx == AllBound(2, None);
  }

  /**
   * Activation, creating view 3, then switching to it on a two-vCPU domain:
   * both vCPUs then resume on view 3's table, not on view 0's.
   */
  lemma ActivateCreateSwitch(host: uint64, vttbr0: uint64, vttbr3: uint64)
    ensures var s0 := TwoVcpuDomain(host);
      var o1 := HvmOpSpec(true, OpAltp2m, Altp2mArg(SetDomainState, 1, 0), Env(true, 0, 0, 0, vttbr0), s0);
      var o2 := HvmOpSpec(true, OpAltp2m, Altp2mArg(CreateP2m, 0, 0), Env(true, 0, 0, 3, vttbr3), o1.post);
      var o3 := HvmOpSpec(true, OpAltp2m, Altp2mArg(SwitchP2m, 0, 3), Env(true, 0, 0, 0, 0), o2.post);
      o1.rc == 0 && o2.rc == 0 && o2.copyBack.value.op.u.view == 3 && o3.rc == 0 &&
      |o3.post.p2mIdx| == 2 && ResumeVttbr(o3.post, 0) == vttbr3 && ResumeVttbr(o3.post, 1) == vttbr3
  {
    var s0 := TwoVcpuDomain(host);
    var o1 := HvmOpSpec(true, OpAltp2m, Altp2mArg(SetDomainState, 1, 0), Env(true, 0, 0, 0, vttbr0), s0);
    var o2 := HvmOpSpec(true, OpAltp2m, Altp2mArg(CreateP2m, 0, 0), Env(true, 0, 0, 3, vttbr3), o1.post);
    assert o2.post.active && o2.post.altp2m[3] == vttbr3;
    var o3 := HvmOpSpec(true, OpAltp2m, Altp2mArg(SwitchP2m, 0, 3), Env(true, 0, 0, 0, 0), o2.post);
    assert o3.post.p2mIdx == AllBound(2, Some(3));
  }

  /**
   * set_param may clear the altp2m parameter of an active domain: the domain
   * stays active, Consistent, and with its bindings.
   */
  lemma SetParamMayClearAltp2mWhileActive(supported: bool, arg: GuestArg, env: Env, s: DomainState)
    requires Consistent(s) && s.active && env.found && env.xsmRc == 0
    requires arg.GuestBuffer? && arg.asParam.Some? && arg.asParam.value.index == ParamAltp2m && arg.asParam.value.value == 0
    ensures var o := HvmOpSpec(supported, OpSetParam, arg, env, s);
      o.rc == 0 && o.post.active && o.post.params[ParamAltp2m] == 0 && o.post.p2mIdx == s.p2mIdx && Consistent(o.post)
  {
  }

  /** With the altp2m parameter clear, activation is refused and the domain stays inactive. */
  lemma ActivationNeedsParam(host: uint64, vttbr: uint64)
    ensures var env := Env(true, 0, 0, 0, vttbr);
      var s := TwoVcpuDomain(host).(params := seq(NrParams, _ => 0));
      var o := HvmOpSpec(true, OpAltp2m, Altp2mArg(SetDomainState, 1, 0), env, s);
      o.rc == -EINVAL && !o.post.active && o.post == s
  {
  }
}
