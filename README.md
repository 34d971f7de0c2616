# ARM HVM hypercall control plane for alternate p2m views

This project models `xen/arch/arm/hvm.c`, the ARM part of the Xen hypervisor that handles HVM hypercalls, and proves properties of the model. It covers:

- `hvm_enable`, which records at boot whether alternate p2m ("altp2m") views are available.
- `do_altp2m_op`, the altp2m command handler. It runs an ordered chain of checks on the guest's record, looks up the target domain and releases it, gates commands on the domain's `altp2m_active` flag and the XSM hook, and runs the commands. Among them is the `set_domain_state` transition, which switches `altp2m_active` and binds or unbinds every vCPU.
- `do_hvm_op`, the dispatcher. It handles range-checked get/set on the per-domain `params` table, the guest-request pass-through, the altp2m operation, and `-ENOSYS` for any other operation.
- `altp2m_vcpu_update_p2m`, the resume-time switch. It decides which translation table, an alternate view or the host p2m, goes into `VTTBR_EL2`.

The model has three layers:

- **Interface** (`XenPublic`, `xen_public.dfy`): error numbers, operation numbers, parameter indices, the argument records, the sub-command numbering and the structural check of an altp2m record.
- **Reference definitions** (`Altp2mSpec`, `altp2m_spec.dfy`): pure functions. For each hypercall they give the status returned, the record copied back to the guest, the domain's state afterwards (`DomainState`) and the calls made into the collaborators, in order (`Event`). `Consistent` is the invariant the control plane keeps: a vCPU is bound only while the domain is active and only to a view the p2m layer holds, and an inactive domain holds no view.
- **Imperative model** (`ArmHvm`, `arm_hvm.dfy`): a `Domain` class whose fields the handlers update in place (`altp2mActive`, the `params` array, the per-vCPU altp2m index, the alternate tables), and an `Hvm` class. `Hvm` holds `hvm_funcs.altp2m_supported`, the `VTTBR_EL2` register, a count of held domain handles and a ghost trace of collaborator calls. The handler methods follow the C code branch for branch:
  - `DoAltp2mOp` and `DoHvmOp` are proved to give exactly what `Altp2mOpSpec` and `HvmOpSpec` say. They keep `Consistent` and return the held-handle count to its old value.
  - `SetDomainStateOp` and `Altp2mCommand` are proved to give exactly what `SetDomainStateSpec` and `CommandSpec` say. Each keeps `Consistent` when it held before. For `Altp2mCommand` the domain must also be active if the command needs it. `SweepVcpus`, the per-vCPU loop, is proved to give `VcpuSweep`'s calls and to bind every vCPU as requested.
  - `AltP2mVcpuUpdateP2m` installs `ResumeVttbr`'s table.
  - `HvmEnable` has no reference definition. Its contract states its effect directly.
  - The collaborator methods (`RcuLockDomainByAnyId` through `VmEventMonitorGuestRequest`) stand for functions outside `hvm.c`. They are specified only by the effect the handlers rely on, and they have no rows in the table below.

The properties (`Altp2mProperties`, `altp2m_properties.dfy`) are lemmas over the reference definitions.

Collaborators whose code is not part of this model are inputs:

- `GuestArg` gives what `copy_from_guest` reads (or that it fails) and whether `copy_to_guest` succeeds.
- `Env` gives whether the RCU domain lookup finds the domain, the XSM hook's status, the status of the p2m function called, and the view id and VTTBR of a table the p2m layer builds.

Numeric constants come from Xen's public headers, which are not part of this model: `HVMOP_set_param` 0, `HVMOP_get_param` 1, `HVMOP_guest_request_vm_event` 24, `HVMOP_altp2m` 25, `HVM_PARAM_ALTP2M` 35, `HVM_NR_PARAMS` 37, `HVMOP_ALTP2M_INTERFACE_VERSION` 1, and altp2m sub-commands numbered 1 (`get_domain_state`) to 8 (`change_gfn`). The properties are stated in terms of these names, not the numbers.

Points of the code's behaviour that a reader might not expect:

- `set_domain_state` writes `altp2m_active` (line 132) before it asks the p2m layer for view 0 (line 136). A failed activation therefore returns the p2m layer's error with the domain left active and no view built. `FailedActivationLeavesNoView` states this, and `ResumeFallsBackToHost` shows that the resume switch still installs the host table in that state.
- The sub-command range check (lines 77-78) accepts `get_domain_state` through `change_gfn`, which are numbered 1 to 8.
- `create_p2m` takes the new view id from the p2m layer. The file does not show that this id is fresh.
- `altp2m_active` is not tied to the altp2m parameter: `set_param` may clear `params[HVM_PARAM_ALTP2M]` while the domain is active, as `SetParamMayClearAltp2mWhileActive` shows.
- No per-domain lock serialises `set_domain_state`, so no atomicity property is claimed.

## Model

| member | source | states |
|---|---|---|
| XenPublic.DecodeCmd | xen/arch/arm/hvm.c:77-78 | a sub-command number is accepted exactly when it lies in get_domain_state..change_gfn, and decodes to the command with that number |
| XenPublic.CmdNumber | xen/arch/arm/hvm.c:77-78 | every sub-command's number lies in the accepted range |
| XenPublic.DecodeCmdNumber | xen/arch/arm/hvm.c:77-78 | decoding a sub-command's number gives the sub-command back, so the numbering is one-to-one |
| XenPublic.WellFormed | xen/arch/arm/hvm.c:75-79 | a record passes exactly when both reserved fields are zero, the version is the interface version and the command number decodes |
| XenPublic.CopyOutRc | xen/arch/arm/hvm.c:115 | a copy back to the guest succeeds exactly on a writable buffer and otherwise gives -EFAULT |
| Altp2mSpec.RejectedBeforeLookup | xen/arch/arm/hvm.c:69-79 | a hypercall that passes the availability, copy and structure checks carries a record whose command number decodes |
| Altp2mSpec.TargetOf | xen/arch/arm/hvm.c:81-82 | the lookup is of the current domain exactly when the command is vcpu_enable_notify, and otherwise by the record's domain id |
| Altp2mSpec.NeedsActive | xen/arch/arm/hvm.c:94-96 | the commands gated on altp2m_active are exactly those numbered after set_domain_state |
| Altp2mSpec.VcpuSweep | xen/arch/arm/hvm.c:138-144 | the for_each_vcpu loop calls altp2m_vcpu_initialise (or altp2m_vcpu_destroy) once per vCPU, vCPU k as the k-th call |
| Altp2mSpec.SetDomainStateSpec | xen/arch/arm/hvm.c:131-148 | altp2m_active ends equal to the requested state on every path, the parameter table, vCPU count and host table are untouched, and nothing is copied back |
| Altp2mSpec.SwitchSpec | xen/arch/arm/hvm.c:165-167 | a switch changes only the vCPU bindings, and their number stays the same |
| Altp2mSpec.CommandSpec | xen/arch/arm/hvm.c:105-181 | no command changes the parameter table, the number of vCPUs or the host table |
| Altp2mSpec.Altp2mOpSpec | xen/arch/arm/hvm.c:61-187 | do_altp2m_op never changes the parameter table, the number of vCPUs or the host table |
| Altp2mSpec.ParamOpSpec | xen/arch/arm/hvm.c:198-231 | get_param and set_param touch nothing but the parameter table, and keep its size |
| Altp2mSpec.HvmOpSpec | xen/arch/arm/hvm.c:189-253 | no hypercall changes the size of the parameter table, the number of vCPUs or the host table |
| Altp2mSpec.AltP2mOf | xen/arch/arm/hvm.c:264 | p2m_get_altp2m finds a table exactly when the vCPU is bound to a view the p2m layer holds, and then a table it holds |
| Altp2mSpec.ResumeVttbr | xen/arch/arm/hvm.c:263-280 | the resume switch installs the host table whenever the domain is inactive or the vCPU is unbound |
| Altp2mSpec.Run | xen/arch/arm/hvm.c:189-253 | any sequence of hypercalls keeps the parameter table's size, the vCPU count and the host table |
| Altp2mProperties.ChecksPrecedeLookup | xen/arch/arm/hvm.c:69-79 | unsupported gives -EOPNOTSUPP, a failed copy -EFAULT, a malformed record -EINVAL, in that order; a hypercall makes no call at all and changes nothing exactly when one of these rejects it |
| Altp2mProperties.LookupAndGates | xen/arch/arm/hvm.c:81-103 | vcpu_enable_notify looks up the current domain and every other command looks up by id; a failed lookup gives -ESRCH; a command other than get/set_domain_state on an inactive domain gives -EOPNOTSUPP, and an XSM denial its own status, with no change and only the lookup and release as calls |
| Altp2mProperties.CommandRunsUnderHandle | xen/arch/arm/hvm.c:94-186 | once every gate passes, the command's status, copy-back and effect are the hypercall's, and its calls lie between the lookup and the release |
| Altp2mProperties.CountsAppend | xen/arch/arm/hvm.c:81-85 | counting lookups and releases distributes over concatenated traces |
| Altp2mProperties.SweepTakesNoHandle | xen/arch/arm/hvm.c:138-144 | the per-vCPU loops take and release no domain handle |
| Altp2mProperties.CommandTakesNoHandle | xen/arch/arm/hvm.c:105-181 | no command takes or releases a domain handle |
| Altp2mProperties.HandlesReleasedOnce | xen/arch/arm/hvm.c:183-184 | every hypercall takes at most one domain handle and releases each handle it takes exactly once, as its last call |
| Altp2mProperties.DomainStateNeedsAltp2mParam | xen/arch/arm/hvm.c:107-129 | get_domain_state and set_domain_state give -EINVAL and change nothing when params[HVM_PARAM_ALTP2M] is zero |
| Altp2mProperties.GetDomainStateReportsActive | xen/arch/arm/hvm.c:114-115 | get_domain_state copies the record back with the state field non-zero exactly when the domain is active, and the rest of the record unchanged; it succeeds exactly when the copy does |
| Altp2mProperties.SetSameStateIsNoOp | xen/arch/arm/hvm.c:131-136 | requesting the current state returns 0, makes no call and changes nothing |
| Altp2mProperties.ActivationBuildsViewZeroFirst | xen/arch/arm/hvm.c:131-144 | activation calls p2m_init_altp2m_by_id(d, 0) first; only if it succeeds are vCPUs 0..n-1 initialised in order and bound to view 0; on failure its status is returned, no vCPU is touched and the flag stays set |
| Altp2mProperties.DeactivationUnbindsBeforeFlush | xen/arch/arm/hvm.c:138-147 | deactivation destroys vCPUs 0..n-1 in order and then calls p2m_flush_altp2m; afterwards no vCPU is bound and no view is left |
| Altp2mProperties.StubCommandsDoNothing | xen/arch/arm/hvm.c:153-180 | vcpu_enable_notify, destroy_p2m and change_gfn return 0 with no call and no change |
| Altp2mProperties.CreateP2mCopiesBackOnSuccess | xen/arch/arm/hvm.c:157-160 | create_p2m copies the record back, carrying the new view id, exactly when p2m_init_next_altp2m succeeds, and otherwise returns its status |
| Altp2mProperties.SwitchP2mRebindsVcpus | xen/arch/arm/hvm.c:165-167 | switch_p2m returns p2m_switch_domain_altp2m_by_id's status for the requested view; on success for a held view every vCPU is bound to that view, otherwise nothing changes; no view, flag or parameter changes |
| Altp2mProperties.ResumeAfterSwitch | xen/arch/arm/hvm.c:165-167 | after a successful switch to a held view, every vCPU resumes on that view's table |
| Altp2mProperties.SetMemAccessChecksPad | xen/arch/arm/hvm.c:169-177 | set_mem_access with a non-zero pad gives -EINVAL without calling p2m_set_mem_access; otherwise it returns that call's status for the requested frame, access and view |
| Altp2mProperties.ParamChecks | xen/arch/arm/hvm.c:204-216 | get/set_param give -EFAULT on a failed copy and -EINVAL on an index >= HVM_NR_PARAMS, both before any lookup; -ESRCH on a failed lookup; the XSM status on denial; none changes anything |
| Altp2mProperties.SetParamWritesOnlyIndex | xen/arch/arm/hvm.c:218-221 | set_param stores the value at its index and changes no other parameter and no altp2m state |
| Altp2mProperties.GetParamReturnsStored | xen/arch/arm/hvm.c:222-226 | get_param copies back the record with the stored value and fails only with -EFAULT when the copy does |
| Altp2mProperties.GuestRequestTakesNoPayload | xen/arch/arm/hvm.c:233-238 | the guest request notifies the monitor on a null handle and gives -EINVAL with no notification otherwise |
| Altp2mProperties.UnknownOpNotImplemented | xen/arch/arm/hvm.c:244-249 | any other operation number gives -ENOSYS and does nothing |
| Altp2mProperties.SetDomainStateKeepsConsistent | xen/arch/arm/hvm.c:131-148 | the transition keeps every bound vCPU on an existing view of an active domain and leaves an inactive domain without views, also when it fails |
| Altp2mProperties.CommandKeepsConsistent | xen/arch/arm/hvm.c:105-181 | every command that passed the active gate keeps the domain Consistent |
| Altp2mProperties.Altp2mOpKeepsConsistent | xen/arch/arm/hvm.c:61-187 | do_altp2m_op keeps the domain Consistent whatever it returns |
| Altp2mProperties.HvmOpKeepsConsistent | xen/arch/arm/hvm.c:189-253 | do_hvm_op keeps the domain Consistent whatever it returns |
| Altp2mProperties.RunKeepsConsistent | xen/arch/arm/hvm.c:189-253 | any sequence of hypercalls keeps the domain Consistent |
| Altp2mProperties.InactiveMeansUnbound | xen/arch/arm/hvm.c:140-147 | on a Consistent inactive domain no vCPU is bound to a view |
| Altp2mProperties.FailedActivationLeavesNoView | xen/arch/arm/hvm.c:131-136 | a failed activation returns a non-zero status and leaves the domain active with no view, yet Consistent |
| Altp2mProperties.ResumeSelectsBoundView | xen/arch/arm/hvm.c:263-280 | on a Consistent domain the resume switch installs the bound view's table, and the host table for an unbound vCPU or an inactive domain |
| Altp2mProperties.ResumeInstallsKnownTable | xen/arch/arm/hvm.c:263-280 | the installed VTTBR is always the host table's or that of a table the p2m layer holds |
| Altp2mProperties.ResumeAfterActivation | xen/arch/arm/hvm.c:131-144 | after a successful activation every vCPU resumes on view 0's table |
| Altp2mProperties.ResumeFallsBackToHost | xen/arch/arm/hvm.c:131-147 | after deactivation, or after a failed activation, every vCPU resumes on the host table |
| Altp2mProperties.ActivateQueryDeactivate | xen/arch/arm/hvm.c:107-148 | on a two-vCPU domain, activation binds both vCPUs to view 0, the query reports active, and deactivation unbinds both and leaves no view |
| Altp2mProperties.ActivateCreateSwitch | xen/arch/arm/hvm.c:131-167 | on a two-vCPU domain, activation, create_p2m giving view 3 and a switch to view 3 all succeed, and both vCPUs then resume on view 3's table |
| Altp2mProperties.SetParamMayClearAltp2mWhileActive | xen/arch/arm/hvm.c:218-221 | set_param can clear the altp2m parameter of an active domain, which stays active, Consistent and with its bindings |
| Altp2mProperties.ActivationNeedsParam | xen/arch/arm/hvm.c:124-129 | with the altp2m parameter clear, activation gives -EINVAL and the domain stays inactive |
| ArmHvm.Hvm.HvmEnable | xen/arch/arm/hvm.c:50-58 | altp2m_supported becomes the boot option's value; returns 0 |
| ArmHvm.Hvm.SetDomainStateOp | xen/arch/arm/hvm.c:131-148 | the in-place transition, with its per-vCPU loop, yields exactly the status, state and call trace of SetDomainStateSpec, and keeps the domain Consistent |
| ArmHvm.Hvm.SweepVcpus | xen/arch/arm/hvm.c:138-144 | the loop makes exactly VcpuSweep's calls, vCPU k as the k-th, and leaves every vCPU bound to view 0 (initialise) or unbound (destroy) |
| ArmHvm.Hvm.Altp2mCommand | xen/arch/arm/hvm.c:105-181 | the command switch yields exactly the status, copy-back, state and calls of CommandSpec, and keeps the domain Consistent when the active gate was passed |
| ArmHvm.Hvm.DoAltp2mOp | xen/arch/arm/hvm.c:61-187 | do_altp2m_op yields exactly what Altp2mOpSpec says, keeps the domain Consistent and leaves the held-handle count as it found it |
| ArmHvm.Hvm.DoHvmOp | xen/arch/arm/hvm.c:189-253 | do_hvm_op yields exactly what HvmOpSpec says, writing params in place, keeps the domain Consistent and leaves the held-handle count as it found it |
| ArmHvm.Hvm.GetAltP2m | xen/arch/arm/hvm.c:264 | the lookup yields a table exactly when the vCPU is bound to a view the p2m layer holds, and then that view's table |
| ArmHvm.Hvm.AltP2mVcpuUpdateP2m | xen/arch/arm/hvm.c:263-280 | never fails; VTTBR_EL2 receives the bound alternate table exactly when the domain is active and p2m_get_altp2m finds one, and the host table otherwise |

## Left out

- The debug `printk`/`gdprintk` output, and reading the old `VTTBR_EL2` value for it (lines 246, 267-284): logging only.
- The `isb()` after the register write is commented out in the source. Making a register write visible to the translation unit is not modelled.
- `boolean_param` parsing of the `altp2m` option (lines 39-40): the option's value is a constructor argument of `Hvm`.
- The `.name` field of `hvm_funcs`: never read here.
- The commented-out `is_hvm_domain` and `nestedhvm_enabled` checks (lines 87-92, 124-125): dead code.
- The internals of `copy_from_guest`/`copy_to_guest`: `GuestArg` gives what the copy reads and whether the copy back succeeds.
- The union overlap in the record: the record's union is a record of named fields. That `domain_state.state` shares bytes with `view.view` is not modelled.
- Field widths of the records (u16/u32): they are unbounded naturals. Only parameter values and VTTBRs are bounded to 64 bits.
- The internals of `xsm_hvm_altp2mhvm_op` and `xsm_hvm_param`: their status is an input.
- The internals of `rcu_lock_domain_by_any_id`, `rcu_lock_current_domain` and `rcu_unlock_domain`. Each lookup either finds the one modelled domain or fails. A held-handle counter records what is taken and released. In Xen `rcu_lock_current_domain` cannot fail. The model still lets it fail, so the -ESRCH path of `vcpu_enable_notify` in `LookupAndGates` covers a case that does not occur.
- The bodies of the `p2m_*` functions, which are not part of this model. Their status and any new table's VTTBR are inputs. `p2m_switch_domain_altp2m_by_id` is modelled only as binding every vCPU to the view when it succeeds on a view the p2m layer holds. Its status is an input, and any other work it does in the p2m layer is not modelled. The effect of `p2m_set_mem_access` on the tables is not modelled; only the call and its arguments are recorded.
- ArmHvm.Hvm.P2mInitNextAltp2m: the view id comes from the p2m layer, so freshness of the new id is not claimed.
- `altp2m_vcpu_initialise` and `altp2m_vcpu_destroy`, whose bodies are not part of this model. They are modelled only as binding a vCPU to view 0 and unbinding it. Any vCPU pausing or register update they do is not modelled.
- `vm_event_monitor_guest_request`: recorded as a call, with no effect.
- Concurrency and RCU semantics. The code takes no per-domain lock, so nothing is claimed about concurrent `set_domain_state` calls or a resume racing a transition.
- A rollback on failed activation. The code does not provide one, so it is not stated as a property. The as-written behaviour is stated by `FailedActivationLeavesNoView`.
