/**
 * The default X-Road SOAP header that `XRoadClient._set_default_headers`
 * hands to the SOAP layer: a client block, a service block, the user id and
 * the protocol version.
 */
module Headers {
  import opened Address

  /** Header field names for the four address segments, in segment order. */
  const AddrFields: seq<string> := ["xRoadInstance", "memberClass", "memberCode", "subsystemCode"]
  const ServiceVersion: string := "v1"
  const ProtocolVersion: string := "4.0"
  const ServiceObjectType: string := "SERVICE"
  const ClientObjectType: string := "SUBSYSTEM"

  datatype SoapHeaders = SoapHeaders(
    client: map<string, string>,
    service: map<string, string>,
    userId: string,
    protocolVersion: string)

  predicate Distinct(keys: seq<string>)
  {
    forall i, j :: 0 <= i < j < |keys| ==> keys[i] != keys[j]
  }

  /** The dict comprehension `{keys[i]: v for i, v in enumerate(vals)}`. */
  function Enumerate(keys: seq<string>, vals: seq<string>): (m: map<string, string>)
    requires |vals| <= |keys| && Distinct(keys)
    ensures m.Keys == set i | 0 <= i < |vals| :: keys[i]
    ensures forall i :: 0 <= i < |vals| ==> m[keys[i]] == vals[i]
  {
    if vals == [] then map[]
    else
      var n := |vals| - 1;
      Enumerate(keys, vals[..n])[keys[n] := vals[n]]
  }

  /** The segment field names differ from each other and from the two constant fields. */
  lemma FieldNames()
    ensures Distinct(AddrFields)
    ensures "serviceVersion" !in AddrFields && "objectType" !in AddrFields
  {
  }

  /** The four address segments an identifier block carries, in order. */
  function Segments(block: map<string, string>): (parts: seq<string>)
    requires forall k :: k in AddrFields ==> k in block
    ensures |parts| == 4
    ensures forall i :: 0 <= i < 4 ==> parts[i] == block[AddrFields[i]]
  {
    [block[AddrFields[0]], block[AddrFields[1]], block[AddrFields[2]], block[AddrFields[3]]]
  }

  /** The `service` block: the address's segments by field name, the version and the object type. */
  function ServiceBlock(serviceAddr: string): (block: map<string, string>)
    requires |Split(serviceAddr)| <= 4
    ensures block.Keys == (set i | 0 <= i < |Split(serviceAddr)| :: AddrFields[i]) + {"serviceVersion", "objectType"}
    ensures forall i :: 0 <= i < |Split(serviceAddr)| ==> block[AddrFields[i]] == Split(serviceAddr)[i]
    ensures block["serviceVersion"] == ServiceVersion && block["objectType"] == ServiceObjectType
  {
    FieldNames();
    var segments := Enumerate(AddrFields, Split(serviceAddr));
    var block := segments["serviceVersion" := ServiceVersion]["objectType" := ServiceObjectType];
    assert forall i :: 0 <= i < |Split(serviceAddr)| ==> block[AddrFields[i]] == segments[AddrFields[i]];
    block
  }

  /** The `client` block: the four client segments by field name and the object type. */
  function ClientBlock(segments: seq<string>): (block: map<string, string>)
    requires |segments| == 4
    ensures block.Keys == (set i | 0 <= i < 4 :: AddrFields[i]) + {"objectType"}
    ensures Segments(block) == segments
    ensures block["objectType"] == ClientObjectType
  {
    FieldNames();
    var fields := Enumerate(AddrFields, segments);
    var block := fields["objectType" := ClientObjectType];
    assert forall i :: 0 <= i < 4 ==> block[AddrFields[i]] == fields[AddrFields[i]];
    block
  }

  /**
   * `_set_default_headers`. The comprehension names the service address's
   * segments by their position in AddrFields, so an address of more than
   * four segments would raise IndexError; construction only calls it with
   * exactly four.
   */
  function BuildDefaultHeaders(serviceAddr: string, xroadInstance: string, memberClass: string,
                               memberCode: string, subsystemCode: string, userId: string): (h: SoapHeaders)
    requires |Split(serviceAddr)| <= 4
    ensures h.service == ServiceBlock(serviceAddr)
    ensures h.client == ClientBlock([xroadInstance, memberClass, memberCode, subsystemCode])
    ensures h.userId == userId && h.protocolVersion == ProtocolVersion
  {
    SoapHeaders(ClientBlock([xroadInstance, memberClass, memberCode, subsystemCode]), ServiceBlock(serviceAddr),
                userId, ProtocolVersion)
  }

  /** A service block built from an address of four segments spells that address out. */
  lemma ServiceBlockOfAddress(serviceAddr: string)
    requires |Split(serviceAddr)| == 4
    ensures Join(Segments(ServiceBlock(serviceAddr))) == serviceAddr
  {
    var parts := Split(serviceAddr);
    var block := ServiceBlock(serviceAddr);
    JoinSplit(serviceAddr);
    assert Segments(block) == parts by {
      assert forall i :: 0 <= i < 4 ==> Segments(block)[i] == parts[i];
    }
  }

  /**
   * For a configuration that constructs, the header's two identifier blocks
   * spell out exactly the client and service addresses, and both name the
   * same X-Road instance.
   */
  lemma DefaultHeadersOfConfiguration(clientAddr: string, serviceAddr: string, userId: string)
    requires ParseAddresses(clientAddr, serviceAddr).Ok?
    ensures var id := ParseAddresses(clientAddr, serviceAddr).value;
            var h := BuildDefaultHeaders(serviceAddr, Split(serviceAddr)[0], id.memberClass,
                                         id.memberCode, id.subsystemCode, userId);
            && Join(Segments(h.service)) == serviceAddr
            && Join(Segments(h.client)) == clientAddr
            && h.client["xRoadInstance"] == h.service["xRoadInstance"]
  {
    var id := ParseAddresses(clientAddr, serviceAddr).value;
    var parts := Split(serviceAddr);
    assert |parts| == 4;
    ServiceBlockOfAddress(serviceAddr);
    var h := BuildDefaultHeaders(serviceAddr, parts[0], id.memberClass, id.memberCode, id.subsystemCode, userId);
    assert Segments(h.client) == id.Segments();
    assert AddrFields[0] == "xRoadInstance";
  }
}
