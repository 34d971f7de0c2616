/*
 * The hypercall interface seen by xen/arch/arm/hvm.c: error codes, operation
 * numbers, parameter indices and the argument records that the guest passes.
 *
 * The numeric values come from Xen's public headers (errno.h, hvm_op.h,
 * params.h), which are not part of this model; the values below are the ones
 * those headers define.
 */
module XenPublic {

  datatype Option<T> = None | Some(value: T)

  type uint64 = x: int | 0 <= x < 0x1_0000_0000_0000_0000

  // Error numbers, returned negated.
  const ESRCH: int := 3
  const EFAULT: int := 14
  const EINVAL: int := 22
  const ENOSYS: int := 38
  const EOPNOTSUPP: int := 95

  // Operation numbers accepted by do_hvm_op.
  const OpSetParam: nat := 0
  const OpGetParam: nat := 1
  const OpGuestRequestVmEvent: nat := 24
  const OpAltp2m: nat := 25

  // The per-domain parameter table: its size and the index that enables altp2m.
  const ParamAltp2m: nat := 35
  const NrParams: nat := 37

  // The only version of the altp2m argument record that is understood.
  const Altp2mInterfaceVersion: nat := 1

  /** The sub-commands of the altp2m operation. */
  datatype Cmd =
    | GetDomainState
    | SetDomainState
    | VcpuEnableNotify
    | CreateP2m
    | DestroyP2m
    | SwitchP2m
    | SetMemAccess
    | ChangeGfn

  /** The number that stands for a sub-command in the argument record. */
  function CmdNumber(c: Cmd): (n: nat)
    ensures 1 <= n <= 8
  {
    match c
    case GetDomainState => 1
    case SetDomainState => 2
    case VcpuEnableNotify => 3
    case CreateP2m => 4
    case DestroyP2m => 5
    case SwitchP2m => 6
    case SetMemAccess => 7
    case ChangeGfn => 8
  }

  /** The sub-command a number stands for, if any. */
  function DecodeCmd(n: nat): (c: Option<Cmd>)
    ensures c.Some? <==> 1 <= n <= 8
    ensures c.Some? ==> CmdNumber(c.value) == n
  {
    if n == 1 then Some(GetDomainState)
    else if n == 2 then Some(SetDomainState)
    else if n == 3 then Some(VcpuEnableNotify)
    else if n == 4 then Some(CreateP2m)
    else if n == 5 then Some(DestroyP2m)
    else if n == 6 then Some(SwitchP2m)
    else if n == 7 then Some(SetMemAccess)
    else if n == 8 then Some(ChangeGfn)
    else None
  }

  /** Decoding a sub-command's number gives the sub-command back. */
  lemma DecodeCmdNumber(c: Cmd)
    ensures DecodeCmd(CmdNumber(c)) == Some(c)
  {
  }

  /** The record read by HVMOP_set_param and HVMOP_get_param. */
  datatype HvmParam = HvmParam(domid: nat, index: nat, value: uint64)

  /**
   * The payload union of the altp2m record. `state` is the domain_state
   * variant; `view` is shared by the view and set_mem_access variants (same
   * offset and width); `access`, `pad` and `gfn` belong to set_mem_access.
   */
  datatype Altp2mUnion = Altp2mUnion(state: nat, view: nat, access: nat, pad: nat, gfn: nat)

  /** The record read by HVMOP_altp2m. */
  datatype Altp2mOpRecord =
    Altp2mOpRecord(version: nat, cmd: nat, domain: nat, pad1: nat, pad2: nat, u: Altp2mUnion)

  /**
   * A guest handle as the hypervisor sees it: the null handle, or a buffer
   * that reads as a parameter record or as an altp2m record (None: the copy
   * from the guest fails) and that may or may not accept a copy back.
   */
  datatype GuestArg =
    | NullHandle
    | GuestBuffer(asParam: Option<HvmParam>, asAltp2m: Option<Altp2mOpRecord>, writable: bool)

  /** A record that a handler copies back to the guest. */
  datatype GuestRecord = ParamRecord(param: HvmParam) | Altp2mRecord(op: Altp2mOpRecord)

  /** Status of copy_to_guest on the caller's buffer. */
  function CopyOutRc(arg: GuestArg): (rc: int)
    ensures rc == 0 <==> arg.GuestBuffer? && arg.writable
    ensures rc != 0 ==> rc == -EFAULT
  {
    if arg.GuestBuffer? && arg.writable then 0 else -EFAULT
  }

  /**
   * The structural check of an altp2m record: both reserved fields zero, the
   * supported version, and a command number in the closed range of commands.
   */
  function WellFormed(a: Altp2mOpRecord): (ok: bool)
    ensures ok <==> a.pad1 == 0 && a.pad2 == 0 && a.version == Altp2mInterfaceVersion && DecodeCmd(a.cmd).Some?
  {
    !(a.pad1 != 0 || a.pad2 != 0 ||
      a.version != Altp2mInterfaceVersion ||
      a.cmd < CmdNumber(GetDomainState) ||
      a.cmd > CmdNumber(ChangeGfn))
  }
}
