/** Which address manager owns an address, and the search for it. */
module ReleaseHandlers {
  import opened PolTypes

  /** A network, as far as address ownership goes. */
  datatype DanmNet = DanmNet(id: string, cidr: string, pool6Cidr: string)

  datatype Handler = DanmHandler | CalicoHandler

  /** DANM's own answer to "did you allocate this address from this block"; nothing is assumed of it. */
  type AllocatedByDanm = (string, string) -> bool

  /** The handlers in the order they are asked. */
  const HANDLERS: seq<Handler> := [DanmHandler, CalicoHandler]

  predicate IsIPAllocatedByMe(h: Handler, was: AllocatedByDanm, dnet: DanmNet, ep: DanmEp, ip: string) {
    match h
    case DanmHandler => was(ip, dnet.cidr) || was(ip, dnet.pool6Cidr)
    case CalicoHandler =>
      && ip != NONE_ALLOC_TYPE && ip != ""
      && !was(ip, dnet.cidr) && !was(ip, dnet.pool6Cidr)
      && ep.networkType == "calico"
  }

  /** The handler responsible for an address, if any. */
  function Owner(was: AllocatedByDanm, dnet: DanmNet, ep: DanmEp, ip: string): Option<Handler> {
    if IsIPAllocatedByMe(DanmHandler, was, dnet, ep, ip) then Some(DanmHandler)
    else if IsIPAllocatedByMe(CalicoHandler, was, dnet, ep, ip) then Some(CalicoHandler)
    else None
  }

  /** The search finds the handler that claims the address; no two ever do, so the order they are asked in is
      immaterial. Without one, the address is no Calico address and DANM disowns it. */
  method SelectReleaseIpServiceImplementation(was: AllocatedByDanm, dnet: DanmNet, ep: DanmEp, ip: string)
    returns (service: Option<Handler>)
    ensures service == Owner(was, dnet, ep, ip)
    ensures forall h :: IsIPAllocatedByMe(h, was, dnet, ep, ip) <==> service == Some(h)
    ensures service == Some(DanmHandler) <==> was(ip, dnet.cidr) || was(ip, dnet.pool6Cidr)
    ensures service == Some(CalicoHandler) <==> && !was(ip, dnet.cidr) && !was(ip, dnet.pool6Cidr)
                                                && ip != "" && ip != "none" && ep.networkType == "calico"
    ensures service.None? <==> && !was(ip, dnet.cidr) && !was(ip, dnet.pool6Cidr)
                               && (ip == "" || ip == "none" || ep.networkType != "calico")
  {
    for i := 0 to |HANDLERS|
      invariant forall k :: 0 <= k < i ==> !IsIPAllocatedByMe(HANDLERS[k], was, dnet, ep, ip)
    {
      if IsIPAllocatedByMe(HANDLERS[i], was, dnet, ep, ip) {
        return Some(HANDLERS[i]);
      }
    }
    assert HANDLERS[0] == DanmHandler && HANDLERS[1] == CalicoHandler;
    service := None;
  }
}
