/**
 * `get_company_info`: two remote X-Road calls composed so that a SOAP Fault
 * from the second call is tolerated. The remote service is a parameter: a
 * function from operation name and request to what the call produced.
 */
module Invoker {
  import opened Common

  /** A deserialised SOAP payload: nothing, a string, or a record of named fields. */
  datatype Value = Null | Text(s: string) | Record(fields: map<string, Value>)

  /** What Python code can raise here; only `Fault` is caught. */
  datatype Raised =
    | Fault(message: string)
    | OtherError(message: string)
    | KeyError(key: string)
    | TypeError

  /** The outcome of one remote call: a response payload, or a raised exception. */
  datatype CallOutcome = Returned(response: Value) | Threw(exception: Raised)

  type Remote = (string, Value) -> CallOutcome

  const CompanyPath: seq<string> := ["body", "response", "GetCompanyResult", "Company"]
  const TaxDebtPath: seq<string> := ["body", "response", "GetCompanyTaxDebtResult", "TaxDebt"]
  const TaxDebtKey: string := "TaxDebt"

  /**
   * `v[path[0]][path[1]]...`: a missing key raises KeyError, subscripting a
   * string or None with a string raises TypeError.
   */
  function Lookup(v: Value, path: seq<string>): (r: Result<Value, Raised>)
    ensures path == [] ==> r == Ok(v)
    ensures r.Err? ==> r.error.KeyError? || r.error == TypeError
    ensures r.Err? && r.error.KeyError? ==> r.error.key in path
    decreases |path|
  {
    if path == [] then Ok(v)
    else match v
      case Record(fields) =>
        if path[0] in fields then Lookup(fields[path[0]], path[1..]) else Err(KeyError(path[0]))
      case _ => Err(TypeError)
  }

  /** The nested record in which `path` leads to `leaf`: the shape of a request. */
  function Nest(path: seq<string>, leaf: Value): Value
    decreases |path|
  {
    if path == [] then leaf else Record(map[path[0] := Nest(path[1..], leaf)])
  }

  /** Looking a path up in the record nested along it finds the leaf. */
  lemma {:induction false} LookupNest(path: seq<string>, leaf: Value)
    ensures Lookup(Nest(path, leaf), path) == Ok(leaf)
    decreases |path|
  {
    if path != [] {
      LookupNest(path[1..], leaf);
    }
  }

  /** Looking up a path one key at a time is looking up the whole path. */
  lemma {:induction false} LookupAppend(v: Value, p: seq<string>, q: seq<string>)
    requires Lookup(v, p).Ok?
    ensures Lookup(v, p + q) == Lookup(Lookup(v, p).value, q)
    decreases |p|
  {
    if p != [] {
      assert (p + q)[0] == p[0] && (p + q)[1..] == p[1..] + q;
      LookupAppend(v.fields[p[0]], p[1..], q);
    } else {
      assert p + q == q;
    }
  }

  /** `{query: {'BusinessId': businessId}}`. */
  function Query(query: string, businessId: string): (req: Value)
    ensures Lookup(req, [query, "BusinessId"]) == Ok(Text(businessId))
  {
    LookupNest([query, "BusinessId"], Text(businessId));
    Nest([query, "BusinessId"], Text(businessId))
  }

  /**
   * `target[key] = v`: a record gains or overwrites that one field; any
   * other value raises TypeError.
   */
  function SetItem(target: Value, key: string, v: Value): (r: Result<Value, Raised>)
    ensures r.Ok? <==> target.Record?
    ensures r.Err? ==> r.error == TypeError
    ensures r.Ok? ==> Lookup(r.value, [key]) == Ok(v)
    ensures r.Ok? ==> forall k :: k != key ==> Lookup(r.value, [k]) == Lookup(target, [k])
  {
    if target.Record? then Ok(Record(target.fields[key := v])) else Err(TypeError)
  }

  /** The part inside `try`: the second call, its result path, and the assignment into `info`. */
  method AttachTaxDebt(remote: Remote, businessId: string, info: Value) returns (r: Result<Value, Raised>)
    ensures var call := remote("GetCompanyTaxDebt", Query("taxDebtQuery", businessId));
            && (call.Threw? ==> r == Err(call.exception))
            && (call.Returned? && Lookup(call.response, TaxDebtPath).Err? ==> r == Lookup(call.response, TaxDebtPath))
            && (call.Returned? && Lookup(call.response, TaxDebtPath).Ok? ==>
                  r == SetItem(info, TaxDebtKey, Lookup(call.response, TaxDebtPath).value))
    ensures r.Err? && r.error.Fault? ==> remote("GetCompanyTaxDebt", Query("taxDebtQuery", businessId)) == Threw(r.error)
  {
    var ret := remote("GetCompanyTaxDebt", Query("taxDebtQuery", businessId));
    if ret.Threw? {
      return Err(ret.exception);
    }
    var taxDebt := Lookup(ret.response, TaxDebtPath);
    if taxDebt.Err? {
      return Err(taxDebt.error);
    }
    r := SetItem(info, TaxDebtKey, taxDebt.value);
  }

  /**
   * `get_company_info`. The first call and its result path are outside the
   * `try`, so anything they raise propagates. Inside it, a Fault is
   * swallowed and `info` is returned as the first call gave it; any other
   * exception propagates.
   */
  method GetCompanyInfo(remote: Remote, businessId: string) returns (r: Result<Value, Raised>)
    ensures var first := remote("GetCompany", Query("companyQuery", businessId));
            && (first.Threw? ==> r == Err(first.exception))
            && (first.Returned? && Lookup(first.response, CompanyPath).Err? ==> r == Lookup(first.response, CompanyPath))
    ensures var first := remote("GetCompany", Query("companyQuery", businessId));
            var second := remote("GetCompanyTaxDebt", Query("taxDebtQuery", businessId));
            first.Returned? && Lookup(first.response, CompanyPath).Ok? ==>
              var info := Lookup(first.response, CompanyPath).value;
              && (second.Threw? && second.exception.Fault? ==> r == Ok(info))
              && (second.Threw? && !second.exception.Fault? ==> r == Err(second.exception))
              && (second.Returned? && Lookup(second.response, TaxDebtPath).Err? ==> r == Lookup(second.response, TaxDebtPath))
              && (second.Returned? && Lookup(second.response, TaxDebtPath).Ok? ==>
                    var debt := Lookup(second.response, TaxDebtPath).value;
                    && (info.Record? ==> r.Ok? && Lookup(r.value, [TaxDebtKey]) == Ok(debt)
                                         && forall k :: k != TaxDebtKey ==> Lookup(r.value, [k]) == Lookup(info, [k]))
                    && (!info.Record? ==> r == Err(TypeError)))
    ensures r.Err? && r.error.Fault? ==> remote("GetCompany", Query("companyQuery", businessId)) == Threw(r.error)
  {
    var ret := remote("GetCompany", Query("companyQuery", businessId));
    if ret.Threw? {
      return Err(ret.exception);
    }
    var found := Lookup(ret.response, CompanyPath);
    if found.Err? {
      return Err(found.error);
    }
    var info := found.value;
    var attempt := AttachTaxDebt(remote, businessId, info);
    if attempt.Err? && attempt.error.Fault? {
      return Ok(info);
    }
    return attempt;
  }
}
