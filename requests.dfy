/** The command table and the canonical request: the string the client signs,
  * the form body of a write command, and the URL. */
module Requests {
  import opened Wrappers
  import opened Text

  const BaseUrl: string := "https://cloud.gurobi.com/api/"

  /** The command table `COMMANDS`, and `METHOD`, the HTTP method bound to each entry. */
  const Commands: seq<string> := ["licenses", "machines", "launch", "kill"]
  const Methods: seq<string> := ["GET", "GET", "POST", "POST"]

  /** The binding the table is meant to express: the two read commands use GET,
    * the two write commands POST, and no other name is a command. */
  function MethodOf(command: string): Option<string>
  {
    if command == "licenses" || command == "machines" then Some("GET")
    else if command == "launch" || command == "kill" then Some("POST")
    else None
  }

  /** The scan of `COMMANDS` at the start of `sendCommand`: the index of the
    * command in the table, or 4, which `sendCommand` rejects as an unknown command. */
  method FindCommand(command: string) returns (cmd: nat)
    ensures cmd <= |Commands|
    ensures cmd == |Commands| <==> MethodOf(command).None?
    ensures cmd < |Commands| ==> Commands[cmd] == command && MethodOf(command) == Some(Methods[cmd])
  {
    cmd := 0;
    while cmd < 4
      invariant cmd <= 4
      invariant forall k :: 0 <= k < cmd ==> Commands[k] != command
    {
      if command == Commands[cmd] {
        break;
      }
      cmd := cmd + 1;
    }
    TableIsBinding();
  }

  /** The table binds exactly the four commands, each to `MethodOf`'s method. */
  lemma TableIsBinding()
    ensures |Commands| == |Methods| == 4
    ensures forall k :: 0 <= k < 4 ==> MethodOf(Commands[k]) == Some(Methods[k])
    ensures forall c :: MethodOf(c).Some? ==> c in Commands
  {
    assert Commands[0] == "licenses" && Commands[1] == "machines";
    assert Commands[2] == "launch" && Commands[3] == "kill";
  }

  /** The URL of a request: for GET the access id, not URL-encoded, is the only
    * query parameter; a POST has no query string. */
  function Url(command: string, httpMethod: string, accessId: string): (url: string)
    ensures |url| >= |BaseUrl + command| && url[..|BaseUrl + command|] == BaseUrl + command
    ensures url[|BaseUrl + command|..] == if httpMethod == "GET" then "?id=" + accessId else ""
  {
    if httpMethod == "GET" then BaseUrl + command + "?id=" + accessId else BaseUrl + command
  }

  /** The parameters once `sendCommand` has put the access id under `id`. */
  function WithId(params: map<string, string>, accessId: string): map<string, string>
  {
    params["id" := accessId]
  }

  /** An order in which a hash map may enumerate `keys`: every key exactly once. */
  ghost predicate IsEnumeration(order: seq<string>, keys: set<string>)
  {
    && (forall i, j :: 0 <= i < j < |order| ==> order[i] != order[j])
    && (forall i :: 0 <= i < |order| ==> order[i] in keys)
    && (forall k :: k in keys ==> k in order)
  }

  /** `key=Enc(value)`: one parameter as it is signed and sent. */
  function Pair(key: string, value: string, enc: string -> string): string
  {
    key + "=" + enc(value)
  }

  /** The pairs of `params`, in the order the keys are visited. */
  function Pairs(params: map<string, string>, order: seq<string>, enc: string -> string): (pairs: seq<string>)
    requires forall i :: 0 <= i < |order| ==> order[i] in params
    ensures |pairs| == |order|
  {
    seq(|order|, i requires 0 <= i < |order| && order[i] in params => Pair(order[i], params[order[i]], enc))
  }

  /** The string the client signs: the method, the pairs and the timestamp, separated by `&`. */
  function StringToSign(httpMethod: string, pairs: seq<string>, now: string): string
  {
    Join([httpMethod] + pairs + [now], "&")
  }

  /** The body of a POST: the pairs separated by `&`; nothing (`null`) without pairs. */
  function FormBody(pairs: seq<string>): Option<string>
  {
    if |pairs| == 0 then None else Some(Join(pairs, "&"))
  }

  /** Each pair with a `&` in front of it, as the loop appends them. */
  function Prefixed(pairs: seq<string>): string
  {
    if |pairs| == 0 then "" else Prefixed(pairs[..|pairs| - 1]) + "&" + pairs[|pairs| - 1]
  }

  /** Appending `&pair` for each pair to the method is joining method and pairs by `&`. */
  lemma {:induction false} PrefixedIsJoin(httpMethod: string, pairs: seq<string>)
    ensures httpMethod + Prefixed(pairs) == Join([httpMethod] + pairs, "&")
  {
    if |pairs| > 0 {
      var init := pairs[..|pairs| - 1];
      var last := pairs[|pairs| - 1];
      PrefixedIsJoin(httpMethod, init);
      assert [httpMethod] + pairs == ([httpMethod] + init) + [last];
      JoinSnoc([httpMethod] + init, last, "&");
    } else {
      assert [httpMethod] + pairs == [httpMethod];
    }
  }

  /** The string to sign is the method, then `&key=Enc(value)` for each key in
    * the order visited, then `&` and the timestamp; with no parameters it is
    * the method, `&` and the timestamp. */
  lemma StringToSignAppends(httpMethod: string, pairs: seq<string>, now: string)
    ensures StringToSign(httpMethod, pairs, now) == httpMethod + Prefixed(pairs) + "&" + now
  {
    PrefixedIsJoin(httpMethod, pairs);
    JoinSnoc([httpMethod] + pairs, now, "&");
  }

  /** For a request with parameters, the string to sign is the method, the form
    * body and the timestamp, separated by `&`. */
  lemma StringToSignAroundBody(httpMethod: string, pairs: seq<string>, now: string)
    requires |pairs| > 0
    ensures StringToSign(httpMethod, pairs, now) == httpMethod + "&" + FormBody(pairs).value + "&" + now
  {
    JoinCons(httpMethod, pairs, "&");
    JoinSnoc([httpMethod] + pairs, now, "&");
  }

  lemma PairsSnoc(params: map<string, string>, order: seq<string>, key: string, enc: string -> string)
    requires forall i :: 0 <= i < |order| ==> order[i] in params
    requires key in params
    ensures Pairs(params, order + [key], enc) == Pairs(params, order, enc) + [Pair(key, params[key], enc)]
  {
  }

  /** Part way through the loop: the keys visited so far, each once, and those still to visit. */
  ghost predicate PartlyVisited(order: seq<string>, remaining: set<string>, keys: set<string>)
  {
    && (forall i, j :: 0 <= i < j < |order| ==> order[i] != order[j])
    && (forall i :: 0 <= i < |order| ==> order[i] in keys && order[i] !in remaining)
    && (forall k :: k in keys ==> k in remaining || k in order)
    && remaining <= keys
  }

  lemma VisitKey(order: seq<string>, remaining: set<string>, keys: set<string>, key: string)
    requires PartlyVisited(order, remaining, keys) && key in remaining
    ensures PartlyVisited(order + [key], remaining - {key}, keys)
  {
    assert forall i :: 0 <= i < |order| ==> (order + [key])[i] == order[i];
  }

  /** What the loop has built from the keys visited so far. */
  ghost predicate Built(httpMethod: string, params: map<string, string>, order: seq<string>,
                        enc: string -> string, requestStr: string, query: Option<string>)
  {
    && (forall i :: 0 <= i < |order| ==> order[i] in params)
    && requestStr == httpMethod + Prefixed(Pairs(params, order, enc))
    && query == if httpMethod == "POST" then FormBody(Pairs(params, order, enc)) else None
  }

  /** One more key appends `&key=Enc(value)` to the string and the pair to the body. */
  lemma BuildStep(httpMethod: string, params: map<string, string>, order: seq<string>, key: string,
                  enc: string -> string, requestStr: string, query: Option<string>)
    requires Built(httpMethod, params, order, enc, requestStr, query) && key in params
    ensures var keyVal := Pair(key, params[key], enc);
            Built(httpMethod, params, order + [key], enc, requestStr + "&" + keyVal,
                  if httpMethod != "POST" then query
                  else if query == None then Some(keyVal)
                  else Some(query.value + "&" + keyVal))
  {
    var keyVal := Pair(key, params[key], enc);
    PairsSnoc(params, order, key, enc);
    var pairs := Pairs(params, order, enc);
    assert (pairs + [keyVal])[..|pairs|] == pairs;
    if |pairs| > 0 {
      JoinSnoc(pairs, keyVal, "&");
    }
  }

  /** The loop of `sendCommand` over `params.keySet()`: it visits the keys in
    * whatever order the hash map yields them, and builds the string to sign
    * (without the timestamp, which follows the loop) and, for POST, the form body. */
  method Canonicalize(httpMethod: string, params: map<string, string>, enc: string -> string)
    returns (requestStr: string, query: Option<string>, ghost order: seq<string>)
    ensures IsEnumeration(order, params.Keys)
    ensures requestStr == httpMethod + Prefixed(Pairs(params, order, enc))
    ensures query == if httpMethod == "POST" then FormBody(Pairs(params, order, enc)) else None
    ensures query.Some? <==> httpMethod == "POST" && |params| > 0
    ensures |requestStr| >= |httpMethod| && requestStr[..|httpMethod|] == httpMethod
  {
    requestStr := httpMethod;
    query := None;
    var remaining := params.Keys;
    order := [];
    while remaining != {}
      invariant PartlyVisited(order, remaining, params.Keys)
      invariant Built(httpMethod, params, order, enc, requestStr, query)
      decreases |remaining|
    {
      var key :| key in remaining;
      var keyVal := Pair(key, params[key], enc);
      BuildStep(httpMethod, params, order, key, enc, requestStr, query);
      VisitKey(order, remaining, params.Keys, key);
      requestStr := requestStr + "&" + keyVal;
      if httpMethod == "POST" {
        if query == None {
          query := Some(keyVal);
        } else {
          query := Some(query.value + "&" + keyVal);
        }
      }
      order := order + [key];
      remaining := remaining - {key};
    }
    EnumerationEmpty(order, params.Keys);
  }

  /** An enumeration is empty exactly when there are no keys. */
  lemma EnumerationEmpty(order: seq<string>, keys: set<string>)
    requires IsEnumeration(order, keys)
    ensures |order| == 0 <==> |keys| == 0
  {
    if |keys| > 0 {
      var k :| k in keys;
      assert k in order;
    }
    if |order| > 0 {
      assert order[0] in keys;
    }
  }

  /** `id` is visited exactly once, and its pair carries the access id. */
  lemma IdSignedOnce(params: map<string, string>, accessId: string, order: seq<string>, enc: string -> string)
    requires IsEnumeration(order, WithId(params, accessId).Keys)
    ensures multiset(order)["id"] == 1
    ensures forall i :: 0 <= i < |order| && order[i] == "id" ==>
              Pairs(WithId(params, accessId), order, enc)[i] == "id=" + enc(accessId)
  {
    assert "id" in WithId(params, accessId).Keys;
    assert "id" in order;
    CountedOnce(order, "id");
  }

  /** A key of a sequence without repetitions occurs in it exactly once. */
  lemma {:induction false} CountedOnce(s: seq<string>, x: string)
    requires forall i, j :: 0 <= i < j < |s| ==> s[i] != s[j]
    requires x in s
    ensures multiset(s)[x] == 1
  {
    assert s == [s[0]] + s[1..];
    if s[0] == x {
      NotCounted(s[1..], x);
    } else {
      CountedOnce(s[1..], x);
    }
  }

  lemma {:induction false} AllCounted(s: seq<string>, x: string)
    requires forall j :: 0 <= j < |s| ==> s[j] == x
    ensures multiset(s)[x] == |s|
  {
    if |s| > 0 {
      assert s == [s[0]] + s[1..];
      AllCounted(s[1..], x);
    }
  }

  lemma {:induction false} NotCounted(s: seq<string>, x: string)
    requires forall j :: 0 <= j < |s| ==> s[j] != x
    ensures multiset(s)[x] == 0
  {
    if |s| > 0 {
      assert s == [s[0]] + s[1..];
      NotCounted(s[1..], x);
    }
  }

  /** A read command with no parameters of its own signs just its method, the
    * access id and the timestamp: `GET&id=Enc(accessId)&now`. */
  lemma OnlyIdSigned(accessId: string, order: seq<string>, enc: string -> string, now: string)
    requires IsEnumeration(order, WithId(map[], accessId).Keys)
    ensures order == ["id"]
    ensures StringToSign("GET", Pairs(WithId(map[], accessId), order, enc), now)
            == "GET&id=" + enc(accessId) + "&" + now
  {
    assert WithId(map[], accessId).Keys == {"id"};
    assert "id" in order;
    assert order[0] == "id";
    CountedOnce(order, "id");
    AllCounted(order, "id");
    var pairs := Pairs(WithId(map[], accessId), order, enc);
    assert |pairs| == 1 && pairs[0] == "id=" + enc(accessId);
    assert pairs == ["id=" + enc(accessId)];
    StringToSignAppends("GET", pairs, now);
    assert pairs[..0] == [];
  }

  /** Two keys can be visited in just two orders. */
  lemma TwoKeyOrders(order: seq<string>, a: string, b: string)
    requires a != b
    requires IsEnumeration(order, {a, b})
    ensures order == [a, b] || order == [b, a]
  {
    assert a in order && b in order;
    CountedOnce(order, a);
    CountedOnce(order, b);
    forall x | x != a && x != b
      ensures multiset(order)[x] == 0
    {
      NotCounted(order, x);
    }
    assert multiset(order) == multiset{a, b};
    assert |order| == |multiset(order)| == 2;
  }
}
