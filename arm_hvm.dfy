/*
 * The handlers of xen/arch/arm/hvm.c as imperative code over a domain record
 * that they update in place. Each handler is proved to compute what the
 * reference definitions of module Altp2mSpec say; the handlers that change
 * the domain are proved to keep it Consistent.
 *
 * The collaborators the handlers call (domain lookup, XSM, guest copies, the
 * p2m layer, per-vCPU altp2m bookkeeping, vm_event) are methods below whose
 * outcome is given by an Env value and whose calls are appended to a ghost
 * trace.
 */
module ArmHvm {
  import opened XenPublic
  import opened Altp2mSpec
  import Altp2mProperties

  /** struct domain, restricted to what the HVM control plane touches. */
  class Domain {
    var altp2mActive: bool          // d->arch.altp2m_active
    const params: array<uint64>     // d->arch.hvm_domain.params
    var p2mIdx: seq<Option<nat>>    // each vCPU's altp2m index; None is INVALID_ALTP2M
    var altp2m: map<nat, uint64>    // alternate tables held by the p2m layer: view id to VTTBR
    const hostVttbr: uint64         // VTTBR of the host p2m

    ghost function State(): DomainState
      reads this, params
    {
      DomainState(altp2mActive, params[..], p2mIdx, altp2m, hostVttbr)
    }

    /** A freshly created domain: parameters zero, altp2m inactive, no vCPU bound. */
    constructor (nrVcpus: nat, hostVttbr: uint64)
      ensures fresh(params)
      ensures State() == DomainState(false, seq(NrParams, _ => 0), AllBound(nrVcpus, None), map[], hostVttbr)
      ensures Consistent(State())
    {
      altp2mActive := false;
      params := new uint64[NrParams](_ => 0);
      p2mIdx := AllBound(nrVcpus, None);
      altp2m := map[];
      this.hostVttbr := hostVttbr;
    }
  }

  /** The hypervisor state the HVM handlers of one physical CPU see. */
  class Hvm {
    const optAltp2mEnabled: bool    // opt_altp2m_enabled, the "altp2m" boot option
    var altp2mSupported: bool       // hvm_funcs.altp2m_supported
    const dom: Domain               // the domain the RCU lookups resolve to
    var vttbrEl2: uint64            // the VTTBR_EL2 register
    var held: nat                   // domain handles currently held
    ghost var trace: seq<Event>     // calls into the collaborators, in order

    ghost predicate Valid()
      reads this, dom, dom.params
    {
      Consistent(dom.State())
    }

    constructor (optAltp2mEnabled: bool, d: Domain, vttbr: uint64)
      requires Consistent(d.State())
      ensures Valid() && dom == d && this.optAltp2mEnabled == optAltp2mEnabled
      ensures !altp2mSupported && vttbrEl2 == vttbr && held == 0 && trace == []
    {
      this.optAltp2mEnabled := optAltp2mEnabled;
      altp2mSupported := false;
      dom := d;
      vttbrEl2 := vttbr;
      held := 0;
      trace := [];
    }

    /** hvm_enable: the boot-time initcall that records whether altp2m is available. */
    method HvmEnable() returns (rc: int)
      modifies this`altp2mSupported
      ensures altp2mSupported == optAltp2mEnabled
      ensures rc == 0
    {
      if optAltp2mEnabled {
        altp2mSupported := true;
      } else {
        altp2mSupported := false;
      }
      return 0;
    }

    // ---- collaborators ----

    /** rcu_lock_domain_by_any_id: `found` is the directory's answer. */
    method RcuLockDomainByAnyId(domid: nat, found: bool) returns (d: Domain?)
      modifies this`held, this`trace
      ensures d == (if found then dom else null)
      ensures held == old(held) + (if found then 1 else 0)
      ensures trace == old(trace) + [RcuLookup(DomainById(domid), found)]
    {
      trace := trace + [RcuLookup(DomainById(domid), found)];
      if found {
        held := held + 1;
        d := dom;
      } else {
        d := null;
      }
    }

    /** rcu_lock_current_domain: `found` is the directory's answer. */
    method RcuLockCurrentDomain(found: bool) returns (d: Domain?)
      modifies this`held, this`trace
      ensures d == (if found then dom else null)
      ensures held == old(held) + (if found then 1 else 0)
      ensures trace == old(trace) + [RcuLookup(CurrentDomain, found)]
    {
      trace := trace + [RcuLookup(CurrentDomain, found)];
      if found {
        held := held + 1;
        d := dom;
      } else {
        d := null;
      }
    }

    /** rcu_unlock_domain: releases the handle a lookup returned. */
    method RcuUnlockDomain(d: Domain)
      requires d == dom && held > 0
      modifies this`held, this`trace
      ensures held == old(held) - 1
      ensures trace == old(trace) + [RcuUnlock]
    {
      held := held - 1;
      trace := trace + [RcuUnlock];
    }

    /** p2m_init_altp2m_by_id: builds the table of view `view`; `env.p2mRc` is its status. */
    method P2mInitAltp2mById(view: nat, env: Env) returns (rc: int)
      modifies this`trace, dom`altp2m
      ensures rc == env.p2mRc
      ensures dom.altp2m == if rc == 0 then old(dom.altp2m)[view := env.newVttbr] else old(dom.altp2m)
      ensures trace == old(trace) + [Event.P2mInitAltp2mById(view)]
    {
      trace := trace + [Event.P2mInitAltp2mById(view)];
      rc := env.p2mRc;
      if rc == 0 {
        dom.altp2m := dom.altp2m[view := env.newVttbr];
      }
    }

    /** p2m_init_next_altp2m: builds a table for a view id of the p2m layer's choosing. */
    method P2mInitNextAltp2m(env: Env) returns (rc: int, view: nat)
      modifies this`trace, dom`altp2m
      ensures rc == env.p2mRc && view == env.newView
      ensures dom.altp2m == if rc == 0 then old(dom.altp2m)[view := env.newVttbr] else old(dom.altp2m)
      ensures trace == old(trace) + [Event.P2mInitNextAltp2m]
    {
      trace := trace + [Event.P2mInitNextAltp2m];
      rc, view := env.p2mRc, env.newView;
      if rc == 0 {
        dom.altp2m := dom.altp2m[view := env.newVttbr];
      }
    }

    /** p2m_flush_altp2m: drops every alternate table. */
    method P2mFlushAltp2m()
      modifies this`trace, dom`altp2m
      ensures dom.altp2m == map[]
      ensures trace == old(trace) + [Event.P2mFlushAltp2m]
    {
      trace := trace + [Event.P2mFlushAltp2m];
      dom.altp2m := map[];
    }

    /**
     * p2m_switch_domain_altp2m_by_id: on success for a view the p2m layer
     * holds, binds every vCPU of the domain to that view.
     */
    method P2mSwitchDomainAltp2mById(view: nat, env: Env) returns (rc: int)
      modifies this`trace, dom`p2mIdx
      ensures rc == env.p2mRc
      ensures dom.p2mIdx == if rc == 0 && view in dom.altp2m then AllBound(|old(dom.p2mIdx)|, Some(view)) else old(dom.p2mIdx)
      ensures trace == old(trace) + [P2mSwitchDomainAltp2m(view)]
    {
      trace := trace + [P2mSwitchDomainAltp2m(view)];
      rc := env.p2mRc;
      if rc == 0 && view in dom.altp2m {
        dom.p2mIdx := AllBound(|dom.p2mIdx|, Some(view));
      }
    }

    /** p2m_set_mem_access for one frame: its effect inside the p2m layer is not modelled. */
    method P2mSetMemAccess(gfn: nat, access: nat, view: nat, env: Env) returns (rc: int)
      modifies this`trace
      ensures rc == env.p2mRc
      ensures trace == old(trace) + [Event.P2mSetMemAccess(gfn, access, view)]
    {
      trace := trace + [Event.P2mSetMemAccess(gfn, access, view)];
      rc := env.p2mRc;
    }

    /** altp2m_vcpu_initialise: binds vCPU v to view 0. */
    method AltP2mVcpuInitialise(v: nat)
      requires v < |dom.p2mIdx|
      modifies this`trace, dom`p2mIdx
      ensures dom.p2mIdx == old(dom.p2mIdx)[v := Some(0)]
      ensures trace == old(trace) + [VcpuInitialise(v)]
    {
      trace := trace + [VcpuInitialise(v)];
      dom.p2mIdx := dom.p2mIdx[v := Some(0)];
    }

    /** altp2m_vcpu_destroy: unbinds vCPU v. */
    method AltP2mVcpuDestroy(v: nat)
      requires v < |dom.p2mIdx|
      modifies this`trace, dom`p2mIdx
      ensures dom.p2mIdx == old(dom.p2mIdx)[v := None]
      ensures trace == old(trace) + [VcpuDestroy(v)]
    {
      trace := trace + [VcpuDestroy(v)];
      dom.p2mIdx := dom.p2mIdx[v := None];
    }

    /** vm_event_monitor_guest_request. */
    method VmEventMonitorGuestRequest()
      modifies this`trace
      ensures trace == old(trace) + [MonitorGuestRequest]
    {
      trace := trace + [MonitorGuestRequest];
    }

    /** p2m_get_altp2m: the table vCPU v is bound to, if the p2m layer holds it. */
    method GetAltP2m(v: nat) returns (p2m: Option<uint64>)
      requires v < |dom.p2mIdx|
      ensures p2m.Some? <==> dom.p2mIdx[v].Some? && dom.p2mIdx[v].value in dom.altp2m
      ensures p2m.Some? ==> p2m.value == dom.altp2m[dom.p2mIdx[v].value]
    {
      match dom.p2mIdx[v]
      case None =>
        p2m := None;
      case Some(i) =>
        p2m := if i in dom.altp2m then Some(dom.altp2m[i]) else None;
    }

    // ---- the handlers ----

    /**
     * The set_domain_state transition: the flag is written first, then on a
     * change either view 0 is built and every vCPU bound to it, or every vCPU
     * is unbound and the alternate tables flushed.
     */
    method SetDomainStateOp(requested: bool, env: Env) returns (rc: int)
      modifies this`trace, dom`altp2mActive, dom`p2mIdx, dom`altp2m
      ensures var o := SetDomainStateSpec(old(dom.State()), requested, env);
        rc == o.rc && dom.State() == o.post && trace == old(trace) + o.calls
      ensures Consistent(old(dom.State())) ==> Valid()
    {
      if Consistent(dom.State()) {
        Altp2mProperties.SetDomainStateKeepsConsistent(dom.State(), requested, env);
      }
      rc := 0;
      var ostate := dom.altp2mActive;
      dom.altp2mActive := requested;
      if dom.altp2mActive != ostate {
        if !ostate {
          rc := P2mInitAltp2mById(0, env);
        }
        if ostate || rc == 0 {
          SweepVcpus(!ostate);
          if ostate {
            P2mFlushAltp2m();
          }
        }
      }
    }

    /**
     * The for_each_vcpu loop of set_domain_state: altp2m_vcpu_initialise (or
     * altp2m_vcpu_destroy) on vCPUs 0 .. n-1 in order.
     */
    method SweepVcpus(initialise: bool)
      modifies this`trace, dom`p2mIdx
      ensures dom.p2mIdx == AllBound(|old(dom.p2mIdx)|, if initialise then Some(0) else None)
      ensures trace == old(trace) + VcpuSweep(|old(dom.p2mIdx)|, initialise)
    {
      var n := |dom.p2mIdx|;
      var v := 0;
      while v < n
        invariant 0 <= v <= n == |dom.p2mIdx|
        invariant forall k :: 0 <= k < v ==> dom.p2mIdx[k] == (if initialise then Some(0) else None)
        invariant trace == old(trace) + VcpuSweep(v, initialise)
      {
        if initialise {
          AltP2mVcpuInitialise(v);
        } else {
          AltP2mVcpuDestroy(v);
        }
        v := v + 1;
      }
    }

    /** The switch of do_altp2m_op, once every gate has passed. */
    method Altp2mCommand(cmd: Cmd, a: Altp2mOpRecord, arg: GuestArg, env: Env)
      returns (rc: int, out: Option<GuestRecord>)
      requires WellShaped(dom.State())
      modifies this`trace, dom`altp2mActive, dom`p2mIdx, dom`altp2m
      ensures var o := CommandSpec(cmd, a, arg, env, old(dom.State()));
        rc == o.rc && out == o.copyBack && dom.State() == o.post && trace == old(trace) + o.calls
      ensures Consistent(old(dom.State())) && (NeedsActive(cmd) ==> old(dom.altp2mActive)) ==> Valid()
    {
      ghost var s0 := dom.State();
      if Consistent(s0) && (NeedsActive(cmd) ==> s0.active) {
        Altp2mProperties.CommandKeepsConsistent(cmd, a, arg, env, s0);
      }
      rc, out := 0, None;
      match cmd
      case GetDomainState =>
        if dom.params[ParamAltp2m] == 0 {
          rc := -EINVAL;
        } else {
          var back := a.(u := a.u.(state := if dom.altp2mActive then 1 else 0));
          out := Some(Altp2mRecord(back));
          rc := CopyOutRc(arg);
        }
      case SetDomainState =>
        if dom.params[ParamAltp2m] == 0 {
          rc := -EINVAL;
        } else {
          rc := SetDomainStateOp(a.u.state != 0, env);
        }
      case VcpuEnableNotify =>
      case CreateP2m =>
        var view;
        rc, view := P2mInitNextAltp2m(env);
        if rc == 0 {
          out := Some(Altp2mRecord(a.(u := a.u.(view := view))));
          rc := CopyOutRc(arg);
        }
      case DestroyP2m =>
      case SwitchP2m =>
        rc := P2mSwitchDomainAltp2mById(a.u.view, env);
      case SetMemAccess =>
        if a.u.pad != 0 {
          rc := -EINVAL;
        } else {
          rc := P2mSetMemAccess(a.u.gfn, a.u.access, a.u.view, env);
        }
      case ChangeGfn =>
    }

    /** do_altp2m_op. */
    method DoAltp2mOp(arg: GuestArg, env: Env) returns (rc: int, out: Option<GuestRecord>)
      requires Valid()
      modifies this`held, this`trace, dom`altp2mActive, dom`p2mIdx, dom`altp2m
      ensures Valid() && held == old(held)
      ensures var o := Altp2mOpSpec(altp2mSupported, arg, env, old(dom.State()));
        rc == o.rc && out == o.copyBack && dom.State() == o.post && trace == old(trace) + o.calls
    {
      if !altp2mSupported {
        return -EOPNOTSUPP, None;
      }
      if arg.NullHandle? || arg.asAltp2m.None? {
        return -EFAULT, None;
      }
      var a := arg.asAltp2m.value;
      if !WellFormed(a) {
        return -EINVAL, None;
      }
      var cmd := DecodeCmd(a.cmd).value;

      var d: Domain?;
      if a.cmd != CmdNumber(VcpuEnableNotify) {
        d := RcuLockDomainByAnyId(a.domain, env.found);
      } else {
        d := RcuLockCurrentDomain(env.found);
      }
      if d == null {
        return -ESRCH, None;
      }

      rc, out := 0, None;
      if NeedsActive(cmd) && !d.altp2mActive {
        rc := -EOPNOTSUPP;
      } else {
        rc := env.xsmRc;
        if rc == 0 {
          rc, out := Altp2mCommand(cmd, a, arg, env);
        }
      }
      RcuUnlockDomain(d);
      Altp2mProperties.Altp2mOpKeepsConsistent(old(altp2mSupported), arg, env, old(dom.State()));
    }

    /** do_hvm_op. */
    method DoHvmOp(op: nat, arg: GuestArg, env: Env) returns (rc: int, out: Option<GuestRecord>)
      requires Valid()
      modifies this`held, this`trace, dom`altp2mActive, dom`p2mIdx, dom`altp2m, dom.params
      ensures Valid() && held == old(held)
      ensures var o := HvmOpSpec(altp2mSupported, op, arg, env, old(dom.State()));
        rc == o.rc && out == o.copyBack && dom.State() == o.post && trace == old(trace) + o.calls
    {
      rc, out := 0, None;
      if op == OpSetParam || op == OpGetParam {
        if arg.NullHandle? || arg.asParam.None? {
          return -EFAULT, None;
        }
        var a := arg.asParam.value;
        if a.index >= NrParams {
          return -EINVAL, None;
        }
        var d := RcuLockDomainByAnyId(a.domid, env.found);
        if d == null {
          return -ESRCH, None;
        }
        rc := env.xsmRc;
        if rc == 0 {
          if op == OpSetParam {
            d.params[a.index] := a.value;
          } else {
            out := Some(ParamRecord(a.(value := d.params[a.index])));
            rc := CopyOutRc(arg);
          }
        }
        RcuUnlockDomain(d);
        Altp2mProperties.HvmOpKeepsConsistent(altp2mSupported, op, arg, env, old(dom.State()));
      } else if op == OpGuestRequestVmEvent {
        if arg.NullHandle? {
          VmEventMonitorGuestRequest();
        } else {
          rc := -EINVAL;
        }
      } else if op == OpAltp2m {
        rc, out := DoAltp2mOp(arg, env);
      } else {
        rc := -ENOSYS;
      }
    }

    /** altp2m_vcpu_update_p2m: installs the table vCPU v must run on; never fails. */
    method AltP2mVcpuUpdateP2m(v: nat)
      requires v < |dom.p2mIdx|
      modifies this`vttbrEl2
      ensures vttbrEl2 == ResumeVttbr(dom.State(), v)
    {
      var p2m: Option<uint64> := None;
      if dom.altp2mActive {
        p2m := GetAltP2m(v);
      }
      if p2m.None? {
        p2m := Some(dom.hostVttbr);
      }
      vttbrEl2 := p2m.value;
    }
  }
}
