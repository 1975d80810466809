/** Decoding of the server's responses: an already-parsed JSON value projected
  * onto license and machine records. */
module Responses {
  import opened Wrappers
  import opened Errors

  /** A JSON value as the JSON parser hands it over: integers are Java `Long`s,
    * other numbers `Double`s, objects maps from keys to values. */
  datatype Json =
    | JNull
    | JBool(b: bool)
    | JInt(i: int)
    | JReal(r: real)
    | JString(s: string)
    | JArray(elems: seq<Json>)
    | JObject(fields: map<string, Json>)

  /** `InstantCloudLicense`: every field is a string the server may leave out. */
  datatype License = License(
    licenseId: Option<string>,
    credit: Option<string>,
    expiration: Option<string>,
    ratePlan: Option<string>)

  /** `InstantCloudMachine`: strings, and the idle-shutdown time in minutes. */
  datatype Machine = Machine(
    machineId: Option<string>,
    state: Option<string>,
    dnsName: Option<string>,
    createTime: Option<string>,
    machineType: Option<string>,
    region: Option<string>,
    licenseType: Option<string>,
    idleShutdown: Option<int>,
    licenseId: Option<string>,
    userPassword: Option<string>)

  /** `(String) obj.get(key)`: an absent key or a JSON `null` gives no value, a
    * string gives the string, any other value fails the cast. */
  function StringField(obj: map<string, Json>, key: string): (r: Result<Option<string>, Error>)
    ensures r.Success? <==> StringOrAbsent(obj, key)
    ensures r.Success? ==> r.value == StringAt(obj, key)
    ensures r.Failure? ==> r.error == DecodeError
  {
    if key !in obj then Success(None)
    else match obj[key]
      case JNull => Success(None)
      case JString(s) => Success(Some(s))
      case _ => Failure(DecodeError)
  }

  /** `(Long) obj.get(key)`: the same for an integer field. */
  function LongField(obj: map<string, Json>, key: string): (r: Result<Option<int>, Error>)
    ensures r.Success? <==> key !in obj || obj[key].JNull? || obj[key].JInt?
    ensures r.Success? ==> r.value == IntAt(obj, key)
    ensures r.Failure? ==> r.error == DecodeError
  {
    if key !in obj then Success(None)
    else match obj[key]
      case JNull => Success(None)
      case JInt(i) => Success(Some(i))
      case _ => Failure(DecodeError)
  }

  /** The license record for one element of the response array. */
  function LicenseOf(elem: Json): (r: Result<License, Error>)
    ensures r.Success? ==> elem.JObject?
    ensures r.Success? ==>
      var o := elem.fields;
      r.value == License(StringAt(o, "licenseId"), StringAt(o, "credit"),
                         StringAt(o, "expiration"), StringAt(o, "ratePlan"))
    ensures r.Failure? ==> r.error == DecodeError
  {
    if !elem.JObject? then Failure(DecodeError)
    else
      var o := elem.fields;
      var licenseId := StringField(o, "licenseId");
      var credit := StringField(o, "credit");
      var expiration := StringField(o, "expiration");
      var ratePlan := StringField(o, "ratePlan");
      if licenseId.Failure? || credit.Failure? || expiration.Failure? || ratePlan.Failure? then Failure(DecodeError)
      else Success(License(licenseId.value, credit.value, expiration.value, ratePlan.value))
  }

  /** The machine record for one element of the response array; the server's
    * `_id` is the machine id, every other field has the same name. */
  function MachineOf(elem: Json): (r: Result<Machine, Error>)
    ensures r.Success? ==> elem.JObject?
    ensures r.Success? ==>
      var o := elem.fields;
      r.value == Machine(StringAt(o, "_id"), StringAt(o, "state"), StringAt(o, "DNSName"),
                         StringAt(o, "createTime"), StringAt(o, "machineType"), StringAt(o, "region"),
                         StringAt(o, "licenseType"), IntAt(o, "idleShutdown"), StringAt(o, "licenseId"),
                         StringAt(o, "userPassword"))
    ensures r.Failure? ==> r.error == DecodeError
  {
    if !elem.JObject? then Failure(DecodeError)
    else
      var o := elem.fields;
      var machineId := StringField(o, "_id");
      var state := StringField(o, "state");
      var dnsName := StringField(o, "DNSName");
      var createTime := StringField(o, "createTime");
      var machineType := StringField(o, "machineType");
      var region := StringField(o, "region");
      var licenseType := StringField(o, "licenseType");
      var idleShutdown := LongField(o, "idleShutdown");
      var licenseId := StringField(o, "licenseId");
      var userPassword := StringField(o, "userPassword");
      if || machineId.Failure? || state.Failure? || dnsName.Failure? || createTime.Failure?
         || machineType.Failure? || region.Failure? || licenseType.Failure? || idleShutdown.Failure?
         || licenseId.Failure? || userPassword.Failure?
      then Failure(DecodeError)
      else Success(Machine(machineId.value, state.value, dnsName.value, createTime.value,
                           machineType.value, region.value, licenseType.value, idleShutdown.value,
                           licenseId.value, userPassword.value))
  }

  /** The licenses of a response: one per element of the top-level array, in
    * order; the response fails when it is not an array or an element fails. */
  function Licenses(json: Json): Result<seq<License>, Error>
  {
    if !json.JArray? then Failure(DecodeError)
    else if exists i :: 0 <= i < |json.elems| && LicenseOf(json.elems[i]).Failure? then Failure(DecodeError)
    else Success(seq(|json.elems|, i requires 0 <= i < |json.elems| => LicenseOf(json.elems[i]).value))
  }

  /** The machines of a response, in the same way. */
  function Machines(json: Json): Result<seq<Machine>, Error>
  {
    if !json.JArray? then Failure(DecodeError)
    else if exists i :: 0 <= i < |json.elems| && MachineOf(json.elems[i]).Failure? then Failure(DecodeError)
    else Success(seq(|json.elems|, i requires 0 <= i < |json.elems| => MachineOf(json.elems[i]).value))
  }

  /** The decoding loop of `getLicenses`: a license array as long as the
    * response array, filled element by element. */
  method DecodeLicenses(json: Json) returns (r: Result<array<License>, Error>)
    ensures r.Success? <==> Licenses(json).Success?
    ensures r.Success? ==> fresh(r.value) && r.value[..] == Licenses(json).value
    ensures r.Failure? ==> r.error == DecodeError
  {
    if !json.JArray? {
      return Failure(DecodeError);
    }
    var elems := json.elems;
    var licenses := new License[|elems|];
    var i := 0;
    while i < licenses.Length
      invariant 0 <= i <= licenses.Length == |elems|
      invariant forall k :: 0 <= k < i ==> LicenseOf(elems[k]).Success? && licenses[k] == LicenseOf(elems[k]).value
    {
      var license := LicenseOf(elems[i]);
      if license.Failure? {
        return Failure(DecodeError);
      }
      licenses[i] := license.value;
      i := i + 1;
    }
    return Success(licenses);
  }

  /** The decoding loop of `parseMachines`. */
  method DecodeMachines(json: Json) returns (r: Result<array<Machine>, Error>)
    ensures r.Success? <==> Machines(json).Success?
    ensures r.Success? ==> fresh(r.value) && r.value[..] == Machines(json).value
    ensures r.Failure? ==> r.error == DecodeError
  {
    if !json.JArray? {
      return Failure(DecodeError);
    }
    var elems := json.elems;
    var machines := new Machine[|elems|];
    var i := 0;
    while i < machines.Length
      invariant 0 <= i <= machines.Length == |elems|
      invariant forall k :: 0 <= k < i ==> MachineOf(elems[k]).Success? && machines[k] == MachineOf(elems[k]).value
    {
      var machine := MachineOf(elems[i]);
      if machine.Failure? {
        return Failure(DecodeError);
      }
      machines[i] := machine.value;
      i := i + 1;
    }
    return Success(machines);
  }

  // ---------------------------------------------------------------------------
  // What the projection promises
  // ---------------------------------------------------------------------------

  /** The string stored under `key`, if the object has one there. */
  function StringAt(o: map<string, Json>, key: string): Option<string>
  {
    if key in o && o[key].JString? then Some(o[key].s) else None
  }

  /** The integer stored under `key`, if the object has one there. */
  function IntAt(o: map<string, Json>, key: string): Option<int>
  {
    if key in o && o[key].JInt? then Some(o[key].i) else None
  }

  /** The key is absent, `null`, or holds a string. */
  predicate StringOrAbsent(o: map<string, Json>, key: string)
  {
    key !in o || o[key].JNull? || o[key].JString?
  }

  /** The server keys a machine's string fields are read from. */
  const MachineStringKeys: set<string> :=
    {"_id", "state", "DNSName", "createTime", "machineType", "region", "licenseType", "licenseId", "userPassword"}

  const LicenseKeys: set<string> := {"licenseId", "credit", "expiration", "ratePlan"}

  /** An element decodes to a license exactly when it is an object whose four
    * license keys are absent, `null` or strings; each field is the string under
    * its same-named key, absent when the key holds none. */
  lemma LicenseProjection(elem: Json)
    ensures LicenseOf(elem).Success? <==>
              elem.JObject? && forall k :: k in LicenseKeys ==> StringOrAbsent(elem.fields, k)
    ensures LicenseOf(elem).Success? ==>
              var l := LicenseOf(elem).value;
              var o := elem.fields;
              && l.licenseId == StringAt(o, "licenseId")
              && l.credit == StringAt(o, "credit")
              && l.expiration == StringAt(o, "expiration")
              && l.ratePlan == StringAt(o, "ratePlan")
  {
    if elem.JObject? && forall k :: k in LicenseKeys ==> StringOrAbsent(elem.fields, k) {
      var o := elem.fields;
      assert StringOrAbsent(o, "licenseId") && StringOrAbsent(o, "credit");
      assert StringOrAbsent(o, "expiration") && StringOrAbsent(o, "ratePlan");
    }
  }

  /** An element decodes to a machine exactly when it is an object whose string
    * keys are absent, `null` or strings and whose `idleShutdown` is absent, `null`
    * or an integer. The machine id is the string under `_id`; every other field
    * is the value under its same-named key, absent when the key holds none. */
  lemma MachineProjection(elem: Json)
    ensures MachineOf(elem).Success? <==>
              && elem.JObject?
              && (forall k :: k in MachineStringKeys ==> StringOrAbsent(elem.fields, k))
              && ("idleShutdown" !in elem.fields || elem.fields["idleShutdown"].JNull? || elem.fields["idleShutdown"].JInt?)
    ensures MachineOf(elem).Success? ==>
              var m := MachineOf(elem).value;
              var o := elem.fields;
              && m.machineId == StringAt(o, "_id")
              && m.state == StringAt(o, "state")
              && m.dnsName == StringAt(o, "DNSName")
              && m.createTime == StringAt(o, "createTime")
              && m.machineType == StringAt(o, "machineType")
              && m.region == StringAt(o, "region")
              && m.licenseType == StringAt(o, "licenseType")
              && m.idleShutdown == IntAt(o, "idleShutdown")
              && m.licenseId == StringAt(o, "licenseId")
              && m.userPassword == StringAt(o, "userPassword")
  {
    if && elem.JObject?
       && (forall k :: k in MachineStringKeys ==> StringOrAbsent(elem.fields, k))
    {
      var o := elem.fields;
      assert StringOrAbsent(o, "_id") && StringOrAbsent(o, "state") && StringOrAbsent(o, "DNSName");
      assert StringOrAbsent(o, "createTime") && StringOrAbsent(o, "machineType") && StringOrAbsent(o, "region");
      assert StringOrAbsent(o, "licenseType") && StringOrAbsent(o, "licenseId") && StringOrAbsent(o, "userPassword");
    }
  }

  /** Keys the client does not read do not change the record: decoding is
    * indifferent to fields the server adds. */
  lemma ExtraFieldIgnored(o: map<string, Json>, key: string, value: Json)
    requires key !in MachineStringKeys && key != "idleShutdown"
    requires key !in LicenseKeys
    ensures MachineOf(JObject(o[key := value])) == MachineOf(JObject(o))
    ensures LicenseOf(JObject(o[key := value])) == LicenseOf(JObject(o))
  {
    var o' := o[key := value];
    assert forall k :: k != key ==> StringField(o', k) == StringField(o, k);
    assert LongField(o', "idleShutdown") == LongField(o, "idleShutdown");
  }

  /** A response array of length k decodes to k records, record i from element i;
    * it decodes exactly when every element decodes, and a response that is not
    * an array never decodes. */
  lemma {:induction false} DecodedArray(json: Json)
    ensures Machines(json).Success? <==>
              json.JArray? && forall i :: 0 <= i < |json.elems| ==> MachineOf(json.elems[i]).Success?
    ensures Machines(json).Success? ==>
              && |Machines(json).value| == |json.elems|
              && forall i :: 0 <= i < |json.elems| ==> Success(Machines(json).value[i]) == MachineOf(json.elems[i])
    ensures Licenses(json).Success? <==>
              json.JArray? && forall i :: 0 <= i < |json.elems| ==> LicenseOf(json.elems[i]).Success?
    ensures Licenses(json).Success? ==>
              && |Licenses(json).value| == |json.elems|
              && forall i :: 0 <= i < |json.elems| ==> Success(Licenses(json).value[i]) == LicenseOf(json.elems[i])
  {
  }

  /** One element that is not an object, or one field of the wrong type, makes
    * the whole response fail: no partial result. */
  lemma OneBadElementFails(elems: seq<Json>, i: nat)
    requires i < |elems| && MachineOf(elems[i]).Failure?
    ensures Machines(JArray(elems)) == Failure(DecodeError)
  {
  }

  /** `[]` decodes to no records, not to an error. */
  lemma EmptyResponse()
    ensures Machines(JArray([])) == Success([])
    ensures Licenses(JArray([])) == Success([])
  {
    assert |Machines(JArray([])).value| == 0;
    assert |Licenses(JArray([])).value| == 0;
  }

  /** `[{"_id":"m1","state":"running"}]` decodes to one machine with id `m1` and
    * state `running` and every other field absent. */
  lemma OneRunningMachine()
    ensures Machines(JArray([JObject(map["_id" := JString("m1"), "state" := JString("running")])]))
            == Success([Machine(Some("m1"), Some("running"), None, None, None, None, None, None, None, None)])
  {
    var o := map["_id" := JString("m1"), "state" := JString("running")];
    var elems := [JObject(o)];
    var m := Machine(Some("m1"), Some("running"), None, None, None, None, None, None, None, None);
    assert MachineOf(elems[0]) == Success(m);
    assert seq(1, i requires 0 <= i < |elems| => MachineOf(elems[i]).value) == [m];
  }
}
