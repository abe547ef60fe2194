# pyxroad `test.py` — a verified model of the X-Road client core

pyxroad's `test.py` is a small X-Road client on top of the zeep SOAP
library. X-Road is the Finnish/Estonian e-government SOAP profile. The
client works in four steps:

- `XRoadClient.__init__` checks and splits the client and service
  addresses. An address has the form `instance.memberClass.memberCode.subsystem`.
- `_set_default_headers` builds the default X-Road SOAP header from those
  addresses.
- `XRoadPlugin` rewrites every envelope in place:
  - `ingress` strips `requestHash`, `protocolVersion` and `issue` from
    responses;
  - `egress` stamps requests with a fresh id and the operation name, strips
    zeep's WS-Addressing (`wsa`) elements, and routes the call to the
    security server.
- `get_company_info` calls `GetCompany`, then `GetCompanyTaxDebt`, and
  tolerates a SOAP Fault from the second call.

The model has six modules:

- `Common` (`common.dfy`): `Option` and `Result`.
- `Address` (`address.dfy`):
  - Python's `str.split('.')`, with empty segments kept, and its inverse `Join`;
  - the three construction checks, in the order the code performs them.
- `Headers` (`headers.dfy`): the header value handed to
  `set_default_soapheaders`.
- `Soap` (`soap.dfy`):
  - the envelope as a tree of `Element` values;
  - `find`, which returns the first match;
  - the effect of `ingress` and `egress` as pure functions on the envelope's
    children, with the lemmas about them.
- `XRoad` (`xroad.dfy`): the objects the code mutates.
  - `Envelope` and `BindingOptions` are classes whose fields the hooks
    reassign.
  - `XRoadClient` holds the attributes `__init__` sets.
  - `XRoadPlugin`'s `Ingress` and `Egress` are methods with the source's loops.
  - Each method is proved equal to the `Soap` specification functions.
- `Invoker` (`invoker.dfy`):
  - deserialised payloads are a `Value` tree;
  - subscripting follows Python's rules: a missing key gives `KeyError`, and
    subscripting a string or `None` gives `TypeError`;
  - `get_company_info` is a method over a `remote` function parameter, which
    stands for the SOAP transport.

Notes on the code's behaviour that the model keeps:

- **Address segments may be empty.** The code accepts empty segments (`"a..c.d"` passes).
- **Error messages do not all name the count.** The service-address check
  raises a fixed assertion message. The client address fails with the
  ValueError of a four-way unpacking, which the model records as
  `ClientAddressArity(n)`.
- **A swallowed Fault leaves `TaxDebt` out.** When the tax-debt call raises a
  Fault, `info` is returned without a `TaxDebt` key. It does not get an empty
  one: `tax_debt = {}` (test.py:119) only assigns a local.
- **A Fault is caught only around the second call.** The first call and its
  result path are outside the `try`, so a Fault there propagates.
- **Ingress removes one element per name.** Each name removes only its first
  match. A header with two `requestHash` elements keeps one after ingress and
  loses it on a second pass, so ingress is idempotent only when each name
  occurs at most once (`SanitizeTwiceRemovesTwo`).

## Model

| member | source | states |
|---|---|---|
| Address.Split | test.py:70 | `str.split('.')`: yields one more segment than there are dots, and no segment contains a dot |
| Address.JoinSplit | test.py:76-77 | joining the segments with `.` gives the original address back |
| Address.SplitJoin | test.py:76-77 | splitting a join of dot-free segments gives those segments back |
| Address.ParseAddresses | test.py:70-78 | construction checks, in the code's order: <br>• service address without exactly 3 dots → `MalformedServiceAddress` (line 73) <br>• otherwise, client address without exactly 3 dots → `ClientAddressArity(segment count)` (line 77) <br>• otherwise, success exactly when the two first segments are equal (line 78) <br>• on success, the identity joins back to the client address, and its instance is the service's first segment |
| Address.ParseJoined | test.py:73-78 | for two four-segment dot-free addresses: success with the client's segments in order when the instances agree, `InstanceMismatch(client, service)` when they differ |
| Address.SameInstanceScenario | test.py:91-94 | the sample configuration (`FI-TEST.MUN.0201256-6.YTJclient` against `FI-TEST.GOV.0244683-1.xroadytj-services`) constructs with instance `FI-TEST` |
| Address.CrossInstanceScenario | test.py:78 | a `FI-TEST` client against a `FI-PROD` service fails with `InstanceMismatch("FI-TEST", "FI-PROD")` |
| Headers.Enumerate | test.py:48 | the comprehension `{keys[i]: v for i, v in enumerate(vals)}`: the keys are exactly the first `len(vals)` field names, and each maps to its segment |
| Headers.ServiceBlock | test.py:47-51 | the service block's keys: <br>• the field names of the service segments, plus `serviceVersion` and `objectType` <br>• segment i under `AddrFields[i]` <br>• `serviceVersion = "v1"`, `objectType = "SERVICE"` |
| Headers.ClientBlock | test.py:53-59 | the client block: the four client fields in order, plus `objectType = "SUBSYSTEM"` |
| Headers.BuildDefaultHeaders | test.py:46-63 | the header: <br>• service block from the service address <br>• client block from the instance and the client's member fields <br>• `userId` as configured <br>• `protocolVersion = "4.0"` |
| Headers.ServiceBlockOfAddress | test.py:48 | for a four-segment service address, the service block's four fields joined with `.` are that address |
| Headers.DefaultHeadersOfConfiguration | test.py:46-78 | for every configuration that constructs: <br>• the service block spells out the service address <br>• the client block spells out the client address <br>• both blocks carry the same `xRoadInstance` |
| Soap.Child | test.py:29-30 | `parent.find('{ns}name')`: gives an element exactly when some child has the tag, and then it is the first child with that tag (the one `FindFirst` locates) |
| Soap.Header | test.py:13 | `envelope.find('{soap-env}Header')`: gives an element exactly when the envelope has a SOAP `Header` child, and then it is the first such child |
| Soap.RemoveAt | test.py:18 | `header.remove(el)` at position i: one element shorter; the elements before i are kept, and those after it move down by one |
| Soap.FindFirst | test.py:16 | `find`: returns the index of the first child with the tag, and no earlier child has it; returns nothing exactly when no child has the tag |
| Soap.HeaderAfterReplace | test.py:13 | rewriting the header's children leaves the header where `find` finds it, with the new children |
| Soap.RemoveFirst | test.py:16-18 | one iteration of the ingress loop: <br>• no match → the children are unchanged <br>• a match → exactly the first match is removed, and the elements before and after it are kept in order |
| Soap.StripAll | test.py:15-18 | the ingress loop over a list of names removes at most one element per name: the result is at most `len(names)` shorter, and never longer |
| Soap.Sanitize | test.py:14-18 | the header's children after the three-name loop: at most three fewer, and never more |
| Soap.IngressEffect | test.py:12-20 | the envelope after ingress: <br>• the same length <br>• unchanged when there is no header <br>• otherwise only the header changes, and only in its children, which become `Sanitize` of the old ones |
| Soap.StripAllCount | test.py:15-18 | removing a list of distinct names lowers each listed X-Road name's count by one if present, and leaves every other tag's count unchanged |
| Soap.SanitizeCount | test.py:14-18 | ingress removes at most one `requestHash`, one `protocolVersion` and one `issue`, and no element with any other tag |
| Soap.StripAllKeepsOthers | test.py:15-18 | removing ingress names leaves the sequence of non-target children unchanged |
| Soap.SanitizeKeepsOthers | test.py:14-18 | after ingress, all other children are there, in their original relative order |
| Soap.SanitizeNoTargets | test.py:14-18 | a header with none of the three elements is unchanged by ingress |
| Soap.SanitizeIdempotent | test.py:14-18 | when each name occurs at most once, ingress twice is ingress once |
| Soap.SanitizeTwiceRemovesTwo | test.py:14-18 | counterexample: with two `requestHash` elements, a second ingress changes the header again |
| Soap.DropWsa | test.py:36-38 | the children left by the wsa loop: none has prefix `wsa`, and there are no more of them than before |
| Soap.DropWsaMembers | test.py:36-38 | after the wsa loop, an element is among the children exactly when it was among them before and its prefix is not `wsa` |
| Soap.DropWsaAppend | test.py:36-38 | the wsa loop's effect on a concatenation is the concatenation of its effects |
| Soap.DropWsaNone | test.py:36-38 | children without a `wsa` prefix are left as they are |
| Soap.WriteId | test.py:26-27 | `el.text = token` on the first X-Road `id`: <br>• that element is the old one with only its text replaced by the token <br>• every other child is unchanged <br>• tags and prefixes are unchanged, so the `id` and `service` lookups find the same positions |
| Soap.WriteServiceCode | test.py:29-31 | the first `service` element is the old one with only the text of its first `serviceCode` child replaced by the operation name; every other header child is unchanged |
| Soap.EgressEffect | test.py:24-38 | egress: <br>• succeeds exactly when the header, `id`, `service` and `serviceCode` are all there <br>• fails with `MissingHeader` exactly when there is no header <br>• with no header or no id, leaves the envelope unchanged |
| Soap.EgressStamps | test.py:26-31 | after a complete egress, the first `id` carries the token and the first service's `serviceCode` carries the operation name, unless that element itself had the `wsa` prefix |
| Soap.EgressDropsWsa | test.py:36-38 | a complete egress changes only the header, and leaves no child with prefix `wsa` in it |
| Soap.EgressKeepsOrder | test.py:36-38 | the children left after egress are the original non-`wsa` children in their original order, where each either has only its own text rewritten, or is a `service` with only its children's texts rewritten |
| Soap.EgressFailsAfterId | test.py:26-30 | egress that fails on a missing `service` or `serviceCode` has already written the token into the first `id` and removed nothing |
| XRoad.XRoadClient.Assign | test.py:68-77 | stores the url, user, service address, instance and member fields, and the default header built from them (line 87) |
| XRoad.XRoadClient.New | test.py:66-87 | `XRoadClient(...)`: <br>• raises exactly when `ParseAddresses` reports an error, and with that error <br>• otherwise yields a fresh client: instance from the service address, member class, code and subsystem from the client address, and default header `BuildDefaultHeaders` of them |
| XRoad.RemoveWsaChildren | test.py:36-38 | the loop over a snapshot of the header's children, removing each `wsa` child from the live header: afterwards, the header's children are `DropWsa` of the children before |
| XRoad.XRoadPlugin.constructor | test.py:9-10 | the plugin holds the client whose security server URL egress routes to |
| XRoad.XRoadPlugin.Ingress | test.py:12-20 | without a header: raises and changes nothing. Otherwise: returns the HTTP headers unchanged, and the envelope becomes `IngressEffect` of what it was |
| XRoad.XRoadPlugin.Egress | test.py:22-42 | the envelope becomes `EgressEffect` of what it was (including the partial edit before a failure). On success: the HTTP headers are returned unchanged, and `binding_options['address']` is the client's security server URL. On failure: `binding_options` is untouched |
| Invoker.Lookup | test.py:107 | chained subscripting: <br>• the empty path gives the value itself <br>• an error is a `KeyError` naming a key on the path, or a `TypeError` <br>• an error is never a Fault or any other exception |
| Invoker.LookupNest | test.py:101-105 | looking a path up in the record nested along it finds the leaf |
| Invoker.LookupAppend | test.py:107 | subscripting one key at a time is the same as looking up the whole path |
| Invoker.Query | test.py:101-113 | a request `{query: {'BusinessId': id}}` holds the business id under that path |
| Invoker.SetItem | test.py:117 | `info['TaxDebt'] = v`: <br>• succeeds exactly on a record, and otherwise raises `TypeError` <br>• on success the key holds v, and every other key is unchanged |
| Invoker.AttachTaxDebt | test.py:115-117 | the body of the `try`: <br>• the second call's exception is passed on <br>• a result-path error is passed on <br>• otherwise the result is `info` with `TaxDebt` set <br>• a Fault can only come from the call itself |
| Invoker.GetCompanyInfo | test.py:100-120 | the first call's exception, or its result-path error, propagates. Once `info` is found: <br>• second call Fault → `info` unchanged, with no `TaxDebt` <br>• a non-Fault exception or a result-path error → it propagates <br>• success on a record → `info` with `TaxDebt` set to the payload and every other key unchanged <br>• a Fault in the result can only be the first call's |

## Left out

- The zeep `Client` superclass, WSDL loading (the `wsdl` argument),
  `set_ns_prefix` and the `super().__init__` call (test.py:80-86) are library
  calls. For `set_default_soapheaders`, only the header value passed to it is
  modelled.
- The `plugins` keyword list (test.py:80-82): `XRoadPlugin` holds its client,
  but appending it to zeep's plugin list is library wiring.
- `uuid.uuid4().hex` (test.py:27): the token is a parameter of `Egress`.
  Uniqueness of tokens is probabilistic and is not stated.
- HTTP and SOAP transport and response deserialisation are the `remote`
  function parameter of `GetCompanyInfo`. The `operation` argument of the
  hooks is reduced to its name.
- The module-level script (test.py:90-143): live network calls, `print`,
  `datetime`, and the `if 0:` branches. Only its sample addresses appear, in
  `SameInstanceScenario`.
- lxml is reduced to value trees:
  - element identity and aliasing are not modelled (`header.remove(el)` is a
    removal by position);
  - comments, tails and attributes are not modelled;
  - `find` with a `{namespace}name` path matches direct children only, as
    lxml's does.
- Invoker.GetCompanyInfo: `info` is updated as a value. Zeep hands back a
  reference into the first response, which the code mutates; that aliasing
  is not modelled, and nothing else reads the mutated response.
- Headers.BuildDefaultHeaders: requires at most four service segments. The
  comprehension raises IndexError beyond four, and construction only
  reaches it with exactly four.
- Address.ParseAddresses: the service-address check (test.py:73) and the
  instance check (test.py:78) are Python `assert` statements, which `python -O`
  removes. The model assumes assertions are enabled. Without them:
  - a three-segment service address would construct with a three-field
    service block;
  - a five-segment one would raise IndexError in `_set_default_headers`;
  - a cross-instance configuration would construct.

  The `|Split(serviceAddr)| <= 4` requirement of `ServiceBlock` and
  `BuildDefaultHeaders` holds at their only call site only because of the
  line 73 assertion.
