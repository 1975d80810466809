/** The parameters the two write commands send: the id list of `kill` and the
  * optional settings of `launch`. */
module Parameters {
  import opened Wrappers
  import opened Primitives
  import opened Text

  /** An id between double quotes, as written: nothing inside it is escaped. */
  function Quoted(id: string): string
  {
    "\"" + id + "\""
  }

  function QuotedAll(ids: seq<string>): (quoted: seq<string>)
    ensures |quoted| == |ids|
  {
    seq(|ids|, i requires 0 <= i < |ids| => Quoted(ids[i]))
  }

  /** The JSON array literal of the ids: `[`, the quoted ids separated by `,`, `]`. */
  function IdArrayLiteral(ids: seq<string>): string
  {
    "[" + Join(QuotedAll(ids), ",") + "]"
  }

  /** The loop of `killMachines` that builds the `machineIds` parameter. */
  method MachineIdsJson(machineIds: array<string>) returns (machineJson: string)
    ensures machineJson == IdArrayLiteral(machineIds[..])
  {
    machineJson := "[";
    var i := 0;
    while i < machineIds.Length
      invariant 0 <= i <= machineIds.Length
      invariant machineJson == PartialLiteral(machineIds[..], i)
    {
      ghost var before := machineJson;
      machineJson := machineJson + "\"" + machineIds[i] + "\"";
      if i < machineIds.Length - 1 {
        machineJson := machineJson + ",";
      }
      NextId(machineIds[..], i, before, machineJson);
      i := i + 1;
    }
    assert machineIds[..i] == machineIds[..];
    machineJson := machineJson + "]";
  }

  /** The text after `i` turns of the loop: the first `i` ids, and a `,` when more follow. */
  function PartialLiteral(ids: seq<string>, i: nat): string
    requires i <= |ids|
  {
    "[" + Join(QuotedAll(ids[..i]), ",") + (if 0 < i < |ids| then "," else "")
  }

  /** One turn of the loop appends the next quoted id, and a `,` unless it was the last. */
  lemma NextId(ids: seq<string>, i: nat, before: string, after: string)
    requires i < |ids| && before == PartialLiteral(ids, i)
    requires after == before + "\"" + ids[i] + "\"" + (if i < |ids| - 1 then "," else "")
    ensures after == PartialLiteral(ids, i + 1)
  {
    var quoted := QuotedAll(ids[..i]);
    assert QuotedAll(ids[..i + 1]) == quoted + [Quoted(ids[i])];
    if i > 0 {
      JoinSnoc(quoted, Quoted(ids[i]), ",");
    } else {
      assert quoted + [Quoted(ids[i])] == [Quoted(ids[i])];
    }
  }

  /** Killing machines `a` and `b` sends `["a","b"]`. */
  lemma TwoIds()
    ensures IdArrayLiteral(["a", "b"]) == "[\"a\",\"b\"]"
  {
    var q := QuotedAll(["a", "b"]);
    assert q[0] == Quoted("a") == "\"a\"";
    assert q[1] == Quoted("b") == "\"b\"";
    assert q == ["\"a\"", "\"b\""];
    assert ["\"a\"", "\"b\""][..1] == ["\"a\""];
  }

  /** No ids give the empty array `[]`. */
  lemma NoIds()
    ensures IdArrayLiteral([]) == "[]"
  {
    assert QuotedAll([]) == [];
  }

  /** Because ids are not escaped, one id containing `","` sends the same text as two ids. */
  lemma UnescapedIdsCollide()
    ensures IdArrayLiteral(["a\",\"b"]) == IdArrayLiteral(["a", "b"])
  {
    TwoIds();
    var q := QuotedAll(["a\",\"b"]);
    assert q[0] == Quoted("a\",\"b") == "\"a\",\"b\"";
    assert q == ["\"a\",\"b\""];
  }

  /** `key` is sent exactly when the caller gave a value (a non-null string), and then with that value. */
  predicate SentWhenGiven(params: map<string, string>, key: string, value: Option<string>)
  {
    && (key in params <==> value.Some?)
    && (value.Some? ==> key in params && params[key] == value.value)
  }

  /** The keys `launchMachines` may send. */
  const LaunchKeys: set<string> :=
    {"numMachines", "licenseType", "licenseId", "userPassword", "region", "idleShutdown", "machineType"}

  /** The parameters of `launchMachines`: no key but the seven it knows; the
    * machine count always, as a decimal string; each string setting only when
    * given; the idle-shutdown time unless it is -1. */
  predicate LaunchParamsFor(params: map<string, string>, numMachines: int32, licenseType: Option<string>,
                            licenseId: Option<string>, userPassword: Option<string>, region: Option<string>,
                            idleShutdown: int32, machineType: Option<string>)
  {
    && params.Keys <= LaunchKeys
    && "numMachines" in params && params["numMachines"] == DecimalString(numMachines as int)
    && SentWhenGiven(params, "licenseType", licenseType)
    && SentWhenGiven(params, "licenseId", licenseId)
    && SentWhenGiven(params, "userPassword", userPassword)
    && SentWhenGiven(params, "region", region)
    && SentWhenGiven(params, "machineType", machineType)
    && ("idleShutdown" in params <==> idleShutdown != -1)
    && ("idleShutdown" in params ==> params["idleShutdown"] == DecimalString(idleShutdown as int))
  }

  /** The assembly of the parameter map at the start of `launchMachines`. */
  method LaunchParams(numMachines: int32, licenseType: Option<string>, licenseId: Option<string>,
                      userPassword: Option<string>, region: Option<string>, idleShutdown: int32,
                      machineType: Option<string>)
    returns (params: map<string, string>)
    ensures LaunchParamsFor(params, numMachines, licenseType, licenseId, userPassword, region, idleShutdown, machineType)
  {
    params := map[];
    params := params["numMachines" := DecimalString(numMachines as int)];
    if licenseType.Some? {
      params := params["licenseType" := licenseType.value];
    }
    if licenseId.Some? {
      params := params["licenseId" := licenseId.value];
    }
    if userPassword.Some? {
      params := params["userPassword" := userPassword.value];
    }
    if region.Some? {
      params := params["region" := region.value];
    }
    if idleShutdown != -1 {
      params := params["idleShutdown" := DecimalString(idleShutdown as int)];
    }
    if machineType.Some? {
      params := params["machineType" := machineType.value];
    }
  }

  /** The arguments determine the parameter map completely. */
  lemma LaunchParamsDetermined(p: map<string, string>, q: map<string, string>, numMachines: int32,
                               licenseType: Option<string>, licenseId: Option<string>,
                               userPassword: Option<string>, region: Option<string>,
                               idleShutdown: int32, machineType: Option<string>)
    requires LaunchParamsFor(p, numMachines, licenseType, licenseId, userPassword, region, idleShutdown, machineType)
    requires LaunchParamsFor(q, numMachines, licenseType, licenseId, userPassword, region, idleShutdown, machineType)
    ensures p == q
  {
    forall k | k in p
      ensures k in q && p[k] == q[k]
    {
      assert k in LaunchKeys;
    }
    forall k | k in q
      ensures k in p
    {
      assert k in LaunchKeys;
    }
  }

  /** With every setting left out (`null`, and -1 for the idle time) only the machine count is sent. */
  lemma OnlyCountByDefault(params: map<string, string>, numMachines: int32)
    requires LaunchParamsFor(params, numMachines, None, None, None, None, -1, None)
    ensures params == map["numMachines" := DecimalString(numMachines as int)]
  {
    forall k | k in params
      ensures k == "numMachines"
    {
      assert k in LaunchKeys;
    }
  }
}
