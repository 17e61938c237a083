/** The oVirt cloud provider's instance queries
    (cmd/ovirt-cloud-provider/ovirt-cloud-provider.go): VMs are listed with the
    provider's search query and indexed by name and by id; a VM's status decides
    whether the node still exists; a VM's addresses are its IPs.

    Each query starts from one listing of VMs, an input here together with the
    error the listing returned alongside it. */
module CloudProvider {
  import opened Wrappers
  import opened Definitions

  const DefaultVmSearchQuery := "vms?follow=nics&search="

  /** The error `cloudprovider.InstanceNotFound`. */
  const InstanceNotFound := Message("instance not found")

  const Down := "down"

  datatype Provider = Provider(vmsQuery: string)

  /** A VM listing: the VMs and the error returned with them. */
  datatype Listing = Listing(vms: seq<VM>, err: Option<Error>)

  const ExternalIp := "ExternalIP"

  datatype NodeAddress = NodeAddress(address: string, addressType: string)

  /** `NewOvirtProvider`: refused without an engine url; otherwise the query is
      the default search followed by the configured filter. */
  function NewOvirtProvider(engineUrl: string, filter: string): (r: Result<Provider, Error>)
    ensures r.Failure? <==> engineUrl == ""
    ensures r.Failure? ==> r.error == Message("oVirt engine url is empty")
    ensures r.Success? ==> (|r.value.vmsQuery| == |DefaultVmSearchQuery| + |filter|
                            && r.value.vmsQuery[..|DefaultVmSearchQuery|] == DefaultVmSearchQuery
                            && r.value.vmsQuery[|DefaultVmSearchQuery|..] == filter)
  {
    if engineUrl == "" then Result.Failure(Message("oVirt engine url is empty"))
    else Result.Success(Provider(DefaultVmSearchQuery + filter))
  }

  /* ---------- Indexing ---------- */

  /** `getVms`: the VMs keyed by name, a later VM overriding an earlier one of
      the same name (`VmsByNameIsLast`). */
  function VmsByName(vms: seq<VM>): (m: map<string, VM>)
    ensures forall name :: name in m <==> exists i :: 0 <= i < |vms| && vms[i].name == name
    ensures forall name :: name in m ==> m[name].name == name
    decreases |vms|
  {
    if vms == [] then map[]
    else
      var n := |vms| - 1;
      var m := VmsByName(vms[..n]);
      assert forall i :: 0 <= i < n ==> vms[..n][i] == vms[i];
      m[vms[n].name := vms[n]]
  }

  /** The VM at index `i` is not overridden by a later VM of the same name. */
  predicate Survives(vms: seq<VM>, i: int)
    requires 0 <= i < |vms|
  {
    forall j :: i < j < |vms| ==> vms[j].name != vms[i].name
  }

  /** Each name is mapped to the last VM of that name in the listing. */
  lemma {:induction false} VmsByNameIsLast(vms: seq<VM>, name: string)
    requires name in VmsByName(vms)
    ensures exists i :: 0 <= i < |vms| && vms[i] == VmsByName(vms)[name] && Survives(vms, i)
    decreases |vms|
  {
    var n := |vms| - 1;
    if vms[n].name == name {
      assert Survives(vms, n);
    } else {
      var init := vms[..n];
      assert VmsByName(vms)[name] == VmsByName(init)[name];
      VmsByNameIsLast(init, name);
      var i :| 0 <= i < n && init[i] == VmsByName(init)[name] && Survives(init, i);
      assert init[i] == vms[i];
      forall j | i < j < |vms| ensures vms[j].name != vms[i].name {
        if j < n {
          assert init[j] == vms[j];
        }
      }
    }
  }

  /** A surviving VM is the one its name is mapped to. */
  lemma SurvivorsAreIndexed(vms: seq<VM>, i: int)
    requires 0 <= i < |vms| && Survives(vms, i)
    ensures vms[i].name in VmsByName(vms) && VmsByName(vms)[vms[i].name] == vms[i]
  {
    VmsByNameIsLast(vms, vms[i].name);
    var k :| 0 <= k < |vms| && vms[k] == VmsByName(vms)[vms[i].name] && Survives(vms, k);
    assert vms[k].name == vms[i].name;
    assert !(k < i);
    assert !(i < k);
  }

  /** Re-keys the given VMs by id, each VM overriding earlier ones with the same id. */
  function ReKey(vms: seq<VM>): (m: map<string, VM>)
    ensures forall id :: id in m <==> exists i :: 0 <= i < |vms| && vms[i].id == id
    ensures forall id :: id in m ==> m[id] in vms && m[id].id == id
    decreases |vms|
  {
    if vms == [] then map[]
    else
      var n := |vms| - 1;
      var m := ReKey(vms[..n]);
      assert forall i :: 0 <= i < n ==> vms[..n][i] == vms[i];
      m[vms[n].id := vms[n]]
  }

  /** The VMs that are the indexed VM of their name. */
  function Filter(vms: seq<VM>, byName: map<string, VM>): (s: seq<VM>)
    ensures forall v :: v in s <==> v in vms && v.name in byName && byName[v.name] == v
  {
    if vms == [] then []
    else
      (if vms[0].name in byName && byName[vms[0].name] == vms[0] then [vms[0]] else [])
      + Filter(vms[1..], byName)
  }

  /** Some VM of the listing that a name is mapped to has this id. */
  predicate IsVmId(vms: seq<VM>, id: string) {
    exists name :: name in VmsByName(vms) && VmsByName(vms)[name].id == id
  }

  /** Every VM a name is mapped to survives the filter. */
  lemma IndexedSurvive(vms: seq<VM>, name: string)
    requires name in VmsByName(vms)
    ensures VmsByName(vms)[name] in Filter(vms, VmsByName(vms))
  {
    VmsByNameIsLast(vms, name);
  }

  /** The ids of the filtered VMs are exactly the ids of the VMs the names map to. */
  lemma {:induction false} SurvivorIds(vms: seq<VM>)
    ensures var byName := VmsByName(vms);
            var m := ReKey(Filter(vms, byName));
            forall id :: id in m <==> IsVmId(vms, id)
  {
    var byName := VmsByName(vms);
    var survivors := Filter(vms, byName);
    var m := ReKey(survivors);
    forall id | IsVmId(vms, id) ensures id in m {
      var name :| name in byName && byName[name].id == id;
      IndexedSurvive(vms, name);
      var k :| 0 <= k < |survivors| && survivors[k] == byName[name];
      assert survivors[k].id == id;
    }
    forall id | id in m ensures IsVmId(vms, id) {
      var v := m[id];
      assert v in survivors;
      assert byName[v.name].id == id;
    }
  }

  /** `getVmsById`: the same VMs as `getVms`, keyed by id. */
  function VmsById(vms: seq<VM>): (m: map<string, VM>)
    ensures forall id :: id in m <==> IsVmId(vms, id)
    ensures forall id :: id in m ==>
              (m[id].id == id && m[id].name in VmsByName(vms) && VmsByName(vms)[m[id].name] == m[id])
  {
    SurvivorIds(vms);
    ReKey(Filter(vms, VmsByName(vms)))
  }

  /** When the surviving VMs have distinct ids, every one of them is found by its id. */
  lemma VmsByIdFindsEverySurvivor(vms: seq<VM>, name: string)
    requires name in VmsByName(vms)
    requires forall n1, n2 :: n1 in VmsByName(vms) && n2 in VmsByName(vms) && n1 != n2 ==>
               VmsByName(vms)[n1].id != VmsByName(vms)[n2].id
    ensures var v := VmsByName(vms)[name];
            v.id in VmsById(vms) && VmsById(vms)[v.id] == v
  {
    var v := VmsByName(vms)[name];
    var m := VmsById(vms);
    assert v.id in m;
    var w := m[v.id];
    assert VmsByName(vms)[w.name] == w;
  }

  /** The last VM of a name wins, whatever came before it. */
  lemma LaterVmOverrides(vms: seq<VM>, v: VM)
    ensures VmsByName(vms + [v])[v.name] == v
  {
    assert (vms + [v])[..|vms|] == vms;
  }

  /* ---------- Instance queries ---------- */

  /** `InstanceID`: the VM's id, with the listing's error; a missing or down VM
      is `InstanceNotFound`. */
  function InstanceId(listing: Listing, nodeName: string): (r: (string, Option<Error>))
    ensures var byName := VmsByName(listing.vms);
            && (r.1 == Some(InstanceNotFound) <==>
                  nodeName !in byName || byName[nodeName].status == Down || listing.err == Some(InstanceNotFound))
            && (nodeName !in byName || byName[nodeName].status == Down ==> r == ("", Some(InstanceNotFound)))
            && (nodeName in byName && byName[nodeName].status != Down ==>
                  r == (byName[nodeName].id, listing.err))
  {
    var byName := VmsByName(listing.vms);
    if nodeName !in byName || byName[nodeName].status == Down then ("", Some(InstanceNotFound))
    else (byName[nodeName].id, listing.err)
  }

  /** `ExternalID`: the listing's error first, then `InstanceNotFound` for a
      missing name, else the id whatever the status. */
  function ExternalId(listing: Listing, nodeName: string): (r: (string, Option<Error>))
    ensures listing.err.Some? ==> r == ("", listing.err)
    ensures listing.err.None? ==>
              if nodeName in VmsByName(listing.vms) then r == (VmsByName(listing.vms)[nodeName].id, None)
              else r == ("", Some(InstanceNotFound))
  {
    if listing.err.Some? then ("", listing.err)
    else
      var byName := VmsByName(listing.vms);
      if nodeName !in byName then ("", Some(InstanceNotFound))
      else (byName[nodeName].id, None)
  }

  /** A VM that is down has no instance id, but still has an external id. */
  lemma DownVmHasExternalIdOnly(listing: Listing, nodeName: string)
    requires listing.err.None?
    requires nodeName in VmsByName(listing.vms) && VmsByName(listing.vms)[nodeName].status == Down
    ensures InstanceId(listing, nodeName) == ("", Some(InstanceNotFound))
    ensures ExternalId(listing, nodeName) == (VmsByName(listing.vms)[nodeName].id, None)
  {
  }

  /** `InstanceExistsByProviderID`: the listing's error is ignored; a VM with the
      id exists unless it is down, and an unknown id is false with an error. */
  function InstanceExistsByProviderId(listing: Listing, providerId: string): (r: (bool, Option<Error>))
    ensures r.0 ==> r.1.None?
    ensures var byId := VmsById(listing.vms);
            && (providerId in byId ==> r == (byId[providerId].status != Down, None))
            && (providerId !in byId ==>
                  r == (false, Some(Message("there is no instance with ID " + providerId))))
  {
    var byId := VmsById(listing.vms);
    if providerId in byId then (byId[providerId].status != Down, None)
    else (false, Some(Message("there is no instance with ID " + providerId)))
  }

  /** `InstanceShutdownByProviderID`: true exactly for a down VM; an unknown id
      or a failed listing is an error. */
  function InstanceShutdownByProviderId(listing: Listing, providerId: string): (r: (bool, Option<Error>))
    ensures r.0 <==> listing.err.None? && providerId in VmsById(listing.vms)
                     && VmsById(listing.vms)[providerId].status == Down
    ensures r.1.None? <==> listing.err.None? && providerId in VmsById(listing.vms)
    ensures listing.err.Some? ==> r.1 == listing.err
  {
    if listing.err.Some? then (false, listing.err)
    else
      var byId := VmsById(listing.vms);
      if providerId !in byId then (false, Some(Message("vm with id " + providerId + " doesn't exist")))
      else (byId[providerId].status == Down, None)
  }

  /** For a known id with a clean listing, existence and shutdown are opposite answers. */
  lemma ExistsIffNotShutdown(listing: Listing, providerId: string)
    requires listing.err.None? && providerId in VmsById(listing.vms)
    ensures InstanceExistsByProviderId(listing, providerId).0
            <==> !InstanceShutdownByProviderId(listing, providerId).0
  {
  }

  /* ---------- Addresses ---------- */

  /** The IPs of a VM in nic, device, ip order. Each level is folded from the
      end, so a prefix extended by one element extends the result. */
  function DeviceIps(devices: seq<Device>): seq<Ip>
    decreases |devices|
  {
    if devices == [] then []
    else DeviceIps(devices[..|devices| - 1]) + devices[|devices| - 1].ips
  }

  function NicIps(nics: seq<Nic>): seq<Ip>
    decreases |nics|
  {
    if nics == [] then []
    else NicIps(nics[..|nics| - 1]) + DeviceIps(nics[|nics| - 1].devices)
  }

  /** The number of IPs, counted independently. */
  function IpCount(nics: seq<Nic>): nat
    decreases |nics|
  {
    if nics == [] then 0
    else DeviceIpCount(nics[0].devices) + IpCount(nics[1..])
  }

  function DeviceIpCount(devices: seq<Device>): nat
    decreases |devices|
  {
    if devices == [] then 0
    else |devices[0].ips| + DeviceIpCount(devices[1..])
  }

  lemma {:induction false} DeviceIpsFront(devices: seq<Device>)
    requires devices != []
    ensures DeviceIps(devices) == devices[0].ips + DeviceIps(devices[1..])
    decreases |devices|
  {
    var n := |devices| - 1;
    if n > 0 {
      DeviceIpsFront(devices[..n]);
      assert devices[..n][1..] == devices[1..][..n - 1];
      assert devices[..n][0] == devices[0];
    } else {
      assert devices[..n] == [];
    }
  }

  lemma {:induction false} NicIpsFront(nics: seq<Nic>)
    requires nics != []
    ensures NicIps(nics) == DeviceIps(nics[0].devices) + NicIps(nics[1..])
    decreases |nics|
  {
    var n := |nics| - 1;
    if n > 0 {
      NicIpsFront(nics[..n]);
      assert nics[..n][1..] == nics[1..][..n - 1];
      assert nics[..n][0] == nics[0];
    } else {
      assert nics[..n] == [];
    }
  }

  lemma {:induction false} DeviceIpsCount(devices: seq<Device>)
    ensures |DeviceIps(devices)| == DeviceIpCount(devices)
    decreases |devices|
  {
    if devices != [] {
      DeviceIpsFront(devices);
      DeviceIpsCount(devices[1..]);
    }
  }

  /** As many IPs as the nics' devices report. */
  lemma {:induction false} NicIpsCount(nics: seq<Nic>)
    ensures |NicIps(nics)| == IpCount(nics)
    decreases |nics|
  {
    if nics != [] {
      NicIpsFront(nics);
      DeviceIpsCount(nics[0].devices);
      NicIpsCount(nics[1..]);
    }
  }

  /** One external address per IP, in order. */
  function AddressesOf(ips: seq<Ip>): (r: seq<NodeAddress>)
    ensures |r| == |ips|
    ensures forall i :: 0 <= i < |ips| ==> r[i] == NodeAddress(ips[i].address, ExternalIp)
  {
    seq(|ips|, i requires 0 <= i < |ips| => NodeAddress(ips[i].address, ExternalIp))
  }

  /** Addresses of a concatenation are the concatenated addresses. */
  lemma AddressesOfAppend(ips: seq<Ip>, more: seq<Ip>)
    ensures AddressesOf(ips + more) == AddressesOf(ips) + AddressesOf(more)
  {
    var l, r := AddressesOf(ips + more), AddressesOf(ips) + AddressesOf(more);
    assert |l| == |r|;
    forall i | 0 <= i < |l|
      ensures l[i] == r[i]
    {
      if i < |ips| {
        assert (ips + more)[i] == ips[i];
      } else {
        assert (ips + more)[i] == more[i - |ips|];
      }
    }
  }

  /** `extractNodeAddresses`, written as the Go nested loops: one ExternalIP
      address per IP of the VM, in nic, device, ip order, as many as it has IPs. */
  method ExtractNodeAddresses(vm: VM) returns (addresses: seq<NodeAddress>)
    ensures addresses == AddressesOf(NicIps(vm.nics))
    ensures |addresses| == IpCount(vm.nics)
    ensures forall i :: 0 <= i < |addresses| ==> addresses[i].addressType == ExternalIp
  {
    addresses := [];
    ghost var seen: seq<Ip> := [];
    var n := 0;
    while n < |vm.nics|
      invariant n <= |vm.nics|
      invariant seen == NicIps(vm.nics[..n])
      invariant addresses == AddressesOf(seen)
    {
      var devices := vm.nics[n].devices;
      var d := 0;
      while d < |devices|
        invariant d <= |devices|
        invariant seen == NicIps(vm.nics[..n]) + DeviceIps(devices[..d])
        invariant addresses == AddressesOf(seen)
      {
        var ips := devices[d].ips;
        var k := 0;
        while k < |ips|
          invariant k <= |ips|
          invariant seen == NicIps(vm.nics[..n]) + DeviceIps(devices[..d]) + ips[..k]
          invariant addresses == AddressesOf(seen)
        {
          AddressesOfAppend(seen, [ips[k]]);
          addresses := addresses + [NodeAddress(ips[k].address, ExternalIp)];
          assert ips[..k + 1] == ips[..k] + [ips[k]];
          seen := seen + [ips[k]];
          k := k + 1;
        }
        assert ips[..k] == ips;
        assert devices[..d + 1][..d] == devices[..d];
        assert DeviceIps(devices[..d + 1]) == DeviceIps(devices[..d]) + ips;
        d := d + 1;
      }
      assert devices[..d] == devices;
      assert vm.nics[..n + 1][..n] == vm.nics[..n];
      assert NicIps(vm.nics[..n + 1]) == NicIps(vm.nics[..n]) + DeviceIps(devices);
      n := n + 1;
    }
    assert vm.nics[..n] == vm.nics;
    NicIpsCount(vm.nics);
  }

  /** `NodeAddresses`: the addresses of the VM with the node's name; a name the
      listing lacks reads as the zero VM, whose empty id is refused. */
  method NodeAddresses(listing: Listing, nodeName: string) returns (r: Result<seq<NodeAddress>, Error>)
    ensures listing.err.Some? ==> r == Result.Failure(listing.err.value)
    ensures listing.err.None? ==>
              var vm := if nodeName in VmsByName(listing.vms) then VmsByName(listing.vms)[nodeName] else ZeroVM;
              (r.Success? <==> vm.id != "")
              && (r.Success? ==> r.value == AddressesOf(NicIps(vm.nics)))
  {
    if listing.err.Some? {
      return Result.Failure(listing.err.value);
    }
    var byName := VmsByName(listing.vms);
    var vm := if nodeName in byName then byName[nodeName] else ZeroVM;
    if vm.id == "" {
      return Result.Failure(Message("VM by the name " + nodeName + " does not exist."
                                    + " The VM may have been removed, or the search query criteria needs correction"));
    }
    var addresses := ExtractNodeAddresses(vm);
    return Result.Success(addresses);
  }

  /** `NodeAddressesByProviderID`: the addresses of the VM with the given id. */
  method NodeAddressesByProviderId(listing: Listing, providerId: string)
    returns (r: Result<seq<NodeAddress>, Error>)
    ensures listing.err.Some? ==> r == Result.Failure(listing.err.value)
    ensures listing.err.None? ==>
              (r.Success? <==> providerId in VmsById(listing.vms))
              && (r.Success? ==> r.value == AddressesOf(NicIps(VmsById(listing.vms)[providerId].nics)))
  {
    if listing.err.Some? {
      return Result.Failure(listing.err.value);
    }
    var byId := VmsById(listing.vms);
    if providerId !in byId {
      return Result.Failure(Message("VM by the ID " + providerId + " does not exist."
                                    + " The VM may have been removed, or the search query criteria needs correction"));
    }
    var addresses := ExtractNodeAddresses(byId[providerId]);
    return Result.Success(addresses);
  }
}
