/**
 * The stateful part: the X-Road client object built at construction, and
 * the plugin whose `ingress` and `egress` hooks edit the SOAP envelope in
 * place.
 */
module XRoad {
  import opened Common
  import opened Address
  import opened Headers
  import opened Soap

  /** The envelope the SOAP layer hands to a hook; its children are edited in place. */
  class Envelope {
    var children: seq<Element>

    constructor (children: seq<Element>)
      ensures this.children == children
    {
      this.children := children;
    }
  }

  /** The SOAP layer's per-call `binding_options` dictionary. */
  class BindingOptions {
    var entries: map<string, string>

    constructor (entries: map<string, string>)
      ensures this.entries == entries
    {
      this.entries := entries;
    }
  }

  /** `XRoadClient`: the attributes `__init__` sets, and the default header it installs. */
  class XRoadClient {
    const securityServerUrl: string
    const userId: string
    const xroadInstance: string
    const serviceAddr: string
    const memberClass: string
    const memberCode: string
    const subsystemCode: string
    const defaultHeaders: SoapHeaders

    /** Stores the attributes; the checks are in New. */
    constructor Assign(securityServerUrl: string, userId: string, serviceAddr: string, client: ClientIdentity)
      requires |Split(serviceAddr)| <= 4
      ensures this.securityServerUrl == securityServerUrl && this.userId == userId
      ensures this.serviceAddr == serviceAddr && this.xroadInstance == Split(serviceAddr)[0]
      ensures memberClass == client.memberClass && memberCode == client.memberCode
      ensures subsystemCode == client.subsystemCode
      ensures defaultHeaders == BuildDefaultHeaders(serviceAddr, Split(serviceAddr)[0], client.memberClass,
                                                    client.memberCode, client.subsystemCode, userId)
    {
      this.securityServerUrl := securityServerUrl;
      this.userId := userId;
      this.xroadInstance := Split(serviceAddr)[0];
      this.serviceAddr := serviceAddr;
      this.memberClass := client.memberClass;
      this.memberCode := client.memberCode;
      this.subsystemCode := client.subsystemCode;
      this.defaultHeaders := BuildDefaultHeaders(serviceAddr, Split(serviceAddr)[0], client.memberClass,
                                                 client.memberCode, client.subsystemCode, userId);
    }

    /**
     * `XRoadClient(wsdl, security_server_url, client_addr, service_addr, user_id)`:
     * raises exactly when ParseAddresses reports an error, and otherwise
     * yields a client whose instance is the service's and whose member
     * fields are the client address's segments two to four.
     */
    static method New(securityServerUrl: string, clientAddr: string, serviceAddr: string, userId: string)
      returns (r: Result<XRoadClient, ConfigError>)
      ensures r.Err? <==> ParseAddresses(clientAddr, serviceAddr).Err?
      ensures r.Err? ==> r.error == ParseAddresses(clientAddr, serviceAddr).error
      ensures r.Ok? ==>
                var id := ParseAddresses(clientAddr, serviceAddr).value;
                && fresh(r.value)
                && r.value.securityServerUrl == securityServerUrl && r.value.userId == userId
                && r.value.serviceAddr == serviceAddr && r.value.xroadInstance == id.instance
                && r.value.memberClass == id.memberClass && r.value.memberCode == id.memberCode
                && r.value.subsystemCode == id.subsystemCode
                && r.value.defaultHeaders == BuildDefaultHeaders(serviceAddr, id.instance, id.memberClass,
                                                                 id.memberCode, id.subsystemCode, userId)
    {
      var service := Split(serviceAddr);
      var instance := service[0];
      if |service| != 4 {
        return Err(MalformedServiceAddress);
      }
      var l := Split(clientAddr);
      if |l| != 4 {
        return Err(ClientAddressArity(|l|));
      }
      if l[0] != instance {
        return Err(InstanceMismatch(l[0], instance));
      }
      var c := new XRoadClient.Assign(securityServerUrl, userId, serviceAddr, ClientIdentity(l[0], l[1], l[2], l[3]));
      return Ok(c);
    }
  }

  /**
   * The loop over a snapshot of the header's children that removes each
   * child whose prefix is `wsa` from the live header, by position.
   */
  method RemoveWsaChildren(envelope: Envelope, h: nat)
    requires h < |envelope.children|
    modifies envelope
    ensures envelope.children == ReplaceKids(old(envelope.children), h, DropWsa(old(envelope.children)[h].children))
  {
    ghost var original := envelope.children;
    var snapshot := envelope.children[h].children;
    ReplaceKidsTwice(original, h, snapshot, snapshot);
    var i, j := 0, 0;
    ghost var kept: seq<Element> := [];
    assert kept + snapshot[i..] == snapshot;
    while i < |snapshot|
      invariant 0 <= i <= |snapshot|
      invariant kept == DropWsa(snapshot[..i]) && j == |kept|
      invariant envelope.children == ReplaceKids(original, h, kept + snapshot[i..])
    {
      DropWsaPrefix(snapshot, i);
      RemoveStep(original, h, kept, snapshot[i..]);
      if IsWsa(snapshot[i]) {
        envelope.children := ReplaceKids(envelope.children, h, RemoveAt(envelope.children[h].children, j));
      } else {
        kept := kept + [snapshot[i]];
        j := j + 1;
      }
      i := i + 1;
    }
    assert snapshot[..i] == snapshot;
    assert kept + snapshot[i..] == DropWsa(snapshot);
  }

  /** DropWsa over one more element of a snapshot. */
  lemma DropWsaPrefix(snapshot: seq<Element>, i: nat)
    requires i < |snapshot|
    ensures DropWsa(snapshot[..i + 1]) == DropWsa(snapshot[..i]) + (if IsWsa(snapshot[i]) then [] else [snapshot[i]])
  {
    assert snapshot[..i + 1] == snapshot[..i] + [snapshot[i]];
    DropWsaSnoc(snapshot[..i], snapshot[i]);
  }

  /**
   * Removing the element just after a kept prefix of the header's children
   * leaves the prefix and the rest; keeping it moves it into the prefix.
   */
  lemma RemoveStep(children: seq<Element>, h: nat, kept: seq<Element>, rest: seq<Element>)
    requires h < |children| && |rest| > 0
    ensures ReplaceKids(ReplaceKids(children, h, kept + rest), h, RemoveAt(kept + rest, |kept|))
            == ReplaceKids(children, h, kept + rest[1..])
    ensures kept + rest == (kept + [rest[0]]) + rest[1..]
  {
    assert (kept + rest)[..|kept|] == kept;
    assert (kept + rest)[|kept| + 1..] == rest[1..];
    ReplaceKidsTwice(children, h, kept + rest, RemoveAt(kept + rest, |kept|));
  }

  /** `XRoadPlugin`: the envelope hooks, holding the client they serve. */
  class XRoadPlugin {
    const client: XRoadClient

    constructor (client: XRoadClient)
      ensures this.client == client
    {
      this.client := client;
    }

    /**
     * `ingress`: removes the first X-Road requestHash, protocolVersion and
     * issue from the header, each only if present. Without a header the
     * first `find` on it raises and nothing changes.
     */
    method Ingress(envelope: Envelope, httpHeaders: map<string, string>)
      returns (r: Result<map<string, string>, HookError>)
      modifies envelope
      ensures r == if Header(old(envelope.children)).None? then Err(MissingHeader) else Ok(httpHeaders)
      ensures envelope.children == IngressEffect(old(envelope.children))
    {
      var found := HeaderIndex(envelope.children);
      if found.None? {
        return Err(MissingHeader);
      }
      var h := found.value;
      ghost var before := envelope.children;
      ghost var kids := before[h].children;
      ReplaceKidsTwice(before, h, kids, kids);
      var removeElements := IngressNames;
      var k := 0;
      while k < |removeElements|
        invariant 0 <= k <= |removeElements|
        invariant h < |before|
        invariant envelope.children == ReplaceKids(before, h, StripAll(kids, removeElements[..k]))
      {
        var header := envelope.children[h];
        var el := FindFirst(header.children, XRoadNs, removeElements[k]);
        assert removeElements[..k + 1][..k] == removeElements[..k];
        assert StripAll(kids, removeElements[..k + 1]) == RemoveFirst(header.children, removeElements[k]);
        if el.Some? {
          ReplaceKidsTwice(before, h, header.children, RemoveAt(header.children, el.value));
          envelope.children := ReplaceKids(envelope.children, h, RemoveAt(header.children, el.value));
        }
        k := k + 1;
      }
      assert removeElements[..k] == IngressNames;
      return Ok(httpHeaders);
    }

    /**
     * `egress`: writes the token into the header's first X-Road `id` and the
     * operation name into its service's `serviceCode`, removes every header
     * child with prefix `wsa`, and routes the call to the security server.
     * A missing header, id, service or serviceCode raises at the step that
     * needs it, after the steps before it took effect.
     */
    method Egress(envelope: Envelope, httpHeaders: map<string, string>, operationName: string,
                  bindingOptions: BindingOptions, token: string)
      returns (r: Result<map<string, string>, HookError>)
      modifies envelope, bindingOptions
      ensures var e := EgressEffect(old(envelope.children), token, operationName);
              && envelope.children == e.children
              && r == if e.error.None? then Ok(httpHeaders) else Err(e.error.value)
      ensures bindingOptions.entries ==
              if r.Ok? then old(bindingOptions.entries)["address" := client.securityServerUrl]
              else old(bindingOptions.entries)
    {
      var found := HeaderIndex(envelope.children);
      if found.None? {
        return Err(MissingHeader);
      }
      var h := found.value;
      var header := envelope.children[h];
      ghost var original := envelope.children;

      var id := FindFirst(header.children, XRoadNs, "id");
      if id.None? {
        return Err(MissingId);
      }
      var el := header.children[id.value];
      envelope.children := ReplaceKids(envelope.children, h, header.children[id.value := el.(text := Some(token))]);
      header := envelope.children[h];
      assert header.children == WriteId(original[h].children, token);

      var si := FindFirst(header.children, XRoadNs, "service");
      if si.None? {
        return Err(MissingService);
      }
      var service := header.children[si.value];
      var ci := FindFirst(service.children, IdentifiersNs, "serviceCode");
      if ci.None? {
        return Err(MissingServiceCode);
      }
      var code := service.children[ci.value];
      service := service.(children := service.children[ci.value := code.(text := Some(operationName))]);
      var written := header.children[si.value := service];
      assert written == WriteServiceCode(header.children, operationName);
      ReplaceKidsTwice(original, h, header.children, written);
      envelope.children := ReplaceKids(envelope.children, h, written);

      RemoveWsaChildren(envelope, h);
      assert envelope.children == ReplaceKids(original, h, DropWsa(written)) by {
        ReplaceKidsTwice(original, h, written, DropWsa(written));
      }

      bindingOptions.entries := bindingOptions.entries["address" := client.securityServerUrl];
      return Ok(httpHeaders);
    }
  }
}
