/**
 * X-Road address strings and the checks `XRoadClient.__init__` makes on them.
 *
 * An address is written `instance.memberClass.memberCode.subsystemCode`.
 * Python's `str.split('.')` cuts at every dot, so empty segments are kept
 * ("a..b" has three segments) and the empty string is one empty segment.
 */
module Address {
  import opened Common

  const Dot: char := '.'

  /** Number of dots in `s`. */
  function DotCount(s: string): nat
  {
    if s == [] then 0 else (if s[0] == Dot then 1 else 0) + DotCount(s[1..])
  }

  /** `s.split('.')`: one segment more than there are dots, none holding a dot. */
  function Split(s: string): (parts: seq<string>)
    ensures |parts| == DotCount(s) + 1
    ensures forall i :: 0 <= i < |parts| ==> Dot !in parts[i]
  {
    if s == [] then [[]]
    else
      var rest := Split(s[1..]);
      if s[0] == Dot then [[]] + rest
      else [[s[0]] + rest[0]] + rest[1..]
  }

  /** `'.'.join(parts)`, the inverse of Split. */
  function Join(parts: seq<string>): string
    requires |parts| >= 1
  {
    if |parts| == 1 then parts[0] else parts[0] + [Dot] + Join(parts[1..])
  }

  /** Joining the segments of a string gives the string back. */
  lemma {:induction false} JoinSplit(s: string)
    ensures Join(Split(s)) == s
  {
    if s != [] {
      var rest := Split(s[1..]);
      JoinSplit(s[1..]);
      assert s == [s[0]] + s[1..];
      if s[0] == Dot {
        var parts := [[]] + rest;
        assert parts[1..] == rest;
        assert Join(parts) == [] + [Dot] + Join(rest);
      } else if |rest| == 1 {
        assert Join([[s[0]] + rest[0]]) == [s[0]] + rest[0];
      } else {
        var parts := [[s[0]] + rest[0]] + rest[1..];
        assert parts[1..] == rest[1..];
        assert Join(rest) == rest[0] + [Dot] + Join(rest[1..]);
        assert Join(parts) == ([s[0]] + rest[0]) + [Dot] + Join(rest[1..]);
      }
    }
  }

  /** A dot-free prefix is glued onto the first segment of what follows it. */
  lemma {:induction false} SplitPrefix(p: string, t: string)
    requires Dot !in p
    ensures Split(p + t) == [p + Split(t)[0]] + Split(t)[1..]
  {
    var st := Split(t);
    if p == [] {
      assert p + t == t;
      assert p + st[0] == st[0];
      assert [st[0]] + st[1..] == st;
    } else {
      var rest := Split(p[1..] + t);
      SplitPrefix(p[1..], t);
      assert (p + t)[1..] == p[1..] + t;
      assert (p + t)[0] == p[0] && p[0] != Dot;
      assert Split(p + t) == [[p[0]] + rest[0]] + rest[1..];
      assert rest[0] == p[1..] + st[0] && rest[1..] == st[1..];
      assert [p[0]] + (p[1..] + st[0]) == p + st[0];
    }
  }

  /** Splitting a join of dot-free segments gives the segments back. */
  lemma {:induction false} SplitJoin(parts: seq<string>)
    requires |parts| >= 1
    requires forall i :: 0 <= i < |parts| ==> Dot !in parts[i]
    ensures Split(Join(parts)) == parts
  {
    if |parts| == 1 {
      SplitPrefix(parts[0], []);
      assert parts[0] + [] == parts[0];
    } else {
      var t := Join(parts[1..]);
      SplitJoin(parts[1..]);
      assert Split([Dot] + t) == [[]] + Split(t);
      SplitPrefix(parts[0], [Dot] + t);
      assert parts[0] + [Dot] + t == parts[0] + ([Dot] + t);
      assert parts[0] + [] == parts[0];
      assert [parts[0]] + parts[1..] == parts;
    }
  }

  /** The client's own address, as unpacked at construction. */
  datatype ClientIdentity = ClientIdentity(
    instance: string, memberClass: string, memberCode: string, subsystemCode: string)
  {
    function Segments(): seq<string> { [instance, memberClass, memberCode, subsystemCode] }
  }

  /** Why construction raised. */
  datatype ConfigError =
    | MalformedServiceAddress              // the assertion on the service address
    | ClientAddressArity(segments: nat)    // ValueError from the four-way unpacking
    | InstanceMismatch(clientInstance: string, serviceInstance: string)

  /**
   * The checks of `XRoadClient.__init__`, in the order they fail: the
   * service address must have four segments; the client address must unpack
   * into four; the client's instance must be the service's.
   */
  function ParseAddresses(clientAddr: string, serviceAddr: string): (r: Result<ClientIdentity, ConfigError>)
    ensures DotCount(serviceAddr) != 3 ==> r == Err(MalformedServiceAddress)
    ensures DotCount(serviceAddr) == 3 && DotCount(clientAddr) != 3 ==>
              r == Err(ClientAddressArity(DotCount(clientAddr) + 1))
    ensures DotCount(serviceAddr) == 3 && DotCount(clientAddr) == 3 ==>
              (r.Ok? <==> Split(clientAddr)[0] == Split(serviceAddr)[0])
    ensures r.Ok? ==> Join(r.value.Segments()) == clientAddr
    ensures r.Ok? ==> r.value.instance == Split(serviceAddr)[0]
  {
    var service := Split(serviceAddr);
    var instance := service[0];
    if |service| != 4 then Err(MalformedServiceAddress)
    else
      var l := Split(clientAddr);
      if |l| != 4 then Err(ClientAddressArity(|l|))
      else if l[0] != instance then Err(InstanceMismatch(l[0], instance))
      else
        JoinSplit(clientAddr);
        assert l == [l[0], l[1], l[2], l[3]];
        Ok(ClientIdentity(l[0], l[1], l[2], l[3]))
  }

  /** A four-segment, dot-free address. */
  predicate IsAddress(parts: seq<string>)
  {
    |parts| == 4 && forall i :: 0 <= i < 4 ==> Dot !in parts[i]
  }

  /**
   * For addresses written from their segments, construction succeeds exactly
   * when the instances agree, and then unpacks the client's segments in order.
   */
  lemma ParseJoined(clientParts: seq<string>, serviceParts: seq<string>)
    requires IsAddress(clientParts) && IsAddress(serviceParts)
    ensures ParseAddresses(Join(clientParts), Join(serviceParts)) ==
            if clientParts[0] == serviceParts[0]
            then Ok(ClientIdentity(clientParts[0], clientParts[1], clientParts[2], clientParts[3]))
            else Err(InstanceMismatch(clientParts[0], serviceParts[0]))
  {
    SplitJoin(clientParts);
    SplitJoin(serviceParts);
  }

  /**
   * Construction with the sample configuration
   * "FI-TEST.MUN.0201256-6.YTJclient" / "FI-TEST.GOV.0244683-1.xroadytj-services"
   * succeeds with instance "FI-TEST". Each address is given as the `.`-join
   * of its four segments.
   */
  lemma SameInstanceScenario()
    ensures ParseAddresses(Join(["FI-TEST", "MUN", "0201256-6", "YTJclient"]),
                           Join(["FI-TEST", "GOV", "0244683-1", "xroadytj-services"]))
            == Ok(ClientIdentity("FI-TEST", "MUN", "0201256-6", "YTJclient"))
  {
    ParseJoined(["FI-TEST", "MUN", "0201256-6", "YTJclient"], ["FI-TEST", "GOV", "0244683-1", "xroadytj-services"]);
  }

  /** A client in FI-TEST cannot be configured against a service in FI-PROD. */
  lemma CrossInstanceScenario()
    ensures ParseAddresses(Join(["FI-TEST", "MUN", "0201256-6", "YTJclient"]),
                           Join(["FI-PROD", "GOV", "0244683-1", "xroadytj-services"]))
            == Err(InstanceMismatch("FI-TEST", "FI-PROD"))
  {
    ParseJoined(["FI-TEST", "MUN", "0201256-6", "YTJclient"], ["FI-PROD", "GOV", "0244683-1", "xroadytj-services"]);
  }
}
