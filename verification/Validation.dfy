/** The check of transfer metadata before it is distributed. */
module Validation {
  import opened ReadPath

  /** Nothing of the entry is missing. */
  predicate Complete(r: Replica) {
    r.addr != 0 && r.size != 0 && r.rkey != "" && r.node.host != "" && r.node.rdmaPort != 0 && r.node.ctrlPort != 0
  }

  /** All entries under a key are complete and tell of tensors of one type, with one layout. */
  ghost predicate ValidList(list: seq<Replica>) {
    && list != [] && (forall r | r in list :: Complete(r))
    && (forall q, r | q in list && r in list ::
          q.tensor.dtype == r.tensor.dtype && q.tensor.size == r.tensor.size && q.tensor.stride == r.tensor.stride)
  }

  ghost predicate ValidMeta(meta: TransferMeta) {
    forall key | key in meta :: ValidList(meta[key])
  }

  datatype MetaFault = Fine | EmptyList | Incomplete | DtypeDiffers | DimensionsDiffer | SizeDiffers | StrideDiffers

  /** What is wrong with entry r of a list that starts with `sample`. */
  predicate FaultOf(sample: Replica, r: Replica, fault: MetaFault) {
    match fault
    case Incomplete =>
      r.addr == 0 || r.size == 0 || r.rkey == "" || r.node.host == "" || r.node.rdmaPort == 0 || r.node.ctrlPort == 0
    case DtypeDiffers => r.tensor.dtype != sample.tensor.dtype
    case DimensionsDiffer => |r.tensor.size| != |sample.tensor.size|
    case SizeDiffers => |r.tensor.size| == |sample.tensor.size| && r.tensor.size != sample.tensor.size
    case StrideDiffers => r.tensor.stride != sample.tensor.stride
    case _ => false
  }

  method ValidateList(list: seq<Replica>) returns (fault: MetaFault)
    ensures fault.Fine? <==> ValidList(list)
    ensures fault.EmptyList? <==> list == []
    ensures !fault.Fine? && list != [] ==> exists r | r in list :: FaultOf(list[0], r, fault)
  {
    if list == [] {
      return EmptyList;
    }
    var sample := list[0];
    for i := 0 to |list|
      invariant forall j | 0 <= j < i ::
        && Complete(list[j]) && list[j].tensor.dtype == sample.tensor.dtype
        && list[j].tensor.size == sample.tensor.size && list[j].tensor.stride == sample.tensor.stride
    {
      var r := list[i];
      assert r in list && sample in list;
      if r.addr == 0 || r.size == 0 || r.rkey == "" || r.node.host == "" || r.node.rdmaPort == 0 || r.node.ctrlPort == 0 {
        return Incomplete;
      }
      if r.tensor.dtype != sample.tensor.dtype {
        return DtypeDiffers;
      }
      if |r.tensor.size| != |sample.tensor.size| {
        return DimensionsDiffer;
      }
      if r.tensor.size != sample.tensor.size {
        return SizeDiffers;
      }
      if r.tensor.stride != sample.tensor.stride {
        return StrideDiffers;
      }
    }
    return Fine;
  }

  /** ValidateTensorTransferMeta, over the keys in any order. */
  method ValidateTensorTransferMeta(meta: TransferMeta) returns (fault: MetaFault)
    ensures fault.Fine? <==> ValidMeta(meta)
    ensures fault.Fine? ==> forall key, r | key in meta && r in meta[key] ::
      r.addr != 0 && r.size != 0 && r.rkey != "" && r.node.host != "" && r.node.rdmaPort != 0 && r.node.ctrlPort != 0
    ensures !fault.Fine? ==> exists key | key in meta ::
      if meta[key] == [] then fault.EmptyList? else exists r | r in meta[key] :: FaultOf(meta[key][0], r, fault)
  {
    var rest := meta.Keys;
    while rest != {}
      invariant rest <= meta.Keys && forall key | key in meta && key !in rest :: ValidList(meta[key])
      decreases rest
    {
      var key :| key in rest;
      rest := rest - {key};
      fault := ValidateList(meta[key]);
      if !fault.Fine? {
        return;
      }
    }
    return Fine;
  }
}
