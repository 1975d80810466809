# Instant Cloud client: a verified model

This project models the deterministic core of the Gurobi Instant Cloud Java
client (`InstantCloudClient`). The client sends four commands to an HTTP API:
`licenses` and `machines` read, `launch` and `kill` write. Each request is
signed with a shared secret. The model covers:

- the hand-written base64 encoder (`zeroPad`, `encode`), proved equal to the
  standard base64 of section 4 of RFC 4648, with its length and padding rules,
  and a decoder that shows the encoding loses nothing;
- the command table and the request built by `sendCommand`: the URL, the
  injected `id` parameter, the string to sign, the POST form body, the
  signature headers and the status check;
- the parameters of the write commands: the unescaped JSON array of machine
  ids that `killMachines` builds, and the settings `launchMachines` sends
  (each only when given);
- the projection of an already-parsed JSON response onto license and machine
  records (`getLicenses`, `parseMachines`).

Layout, one module per file:

| file | module | contents |
|---|---|---|
| wrappers.dfy | Wrappers | `Option`, `Result` |
| primitives.dfy | Primitives | `byte` (a Java byte read as `b & 0xff`), `int32` |
| text.dfy | Text | joining with a separator; decimal strings (`String.valueOf(int)`) and their parse |
| base64.dfy | Base64 | the RFC 4648 reference and the `ZeroPad`/`Encode` methods |
| base64_decoding.dfy | Base64Decoding | the decoder and the round trip |
| requests.dfy | Requests | the command table, the URL, the canonical string and its key-order loop |
| parameters.dfy | Parameters | the `kill` id literal, the `launch` parameter map |
| errors.dfy | Errors | the ways a call fails |
| responses.dfy | Responses | the JSON value, the records, their projection and the array-filling loops |
| client.dfy | Client | the `InstantCloudClient` class and the request/reply lemmas |

The routines the client calls but does not define are function values held in
a `Library` value:

- `URLEncoder.encode`;
- `String.getBytes`;
- HMAC-SHA1;
- `JSONParser.parse`.

The HTTP round trip is a function `server: Request -> Response`. The date
string is a parameter `now`. `HashMap.keySet()` visits keys in an order the
program does not fix. The loop therefore takes an arbitrary remaining key each
time and returns the order it took as a ghost sequence. Every contract holds
for every order.

Behaviour of the code worth noting:

- `sendCommand` lists the keys in the order of the hash map's `keySet()`
  (InstantCloudClient.java:123), which is not the order in which they were put.
- The date pattern is `yyyy-MM-dd'T'HH::mm'Z'`, with a double colon
  (InstantCloudClient.java:138). Here the date is only an input string.
- `killMachines` accepts an empty id list and sends `[]`
  (InstantCloudClient.java:229-236).
- `launchMachines` has no idle-shutdown default: it omits `idleShutdown`
  exactly when the argument is -1 (InstantCloudClient.java:264-266).
- The secret key and the string to sign become bytes through `getBytes()`
  without an argument, so in the platform's default charset
  (InstantCloudClient.java:84, 88); only the URL encoding and the POST body
  name `UTF-8` (InstantCloudClient.java:125, 161).

## Model

| member | source | states |
|---|---|---|
| Base64.AlphabetIsStandard | src/main/java/com/gurobi/cloud/client/InstantCloudClient.java:34-35 | the table `base64code` has 64 characters and entry k is the RFC 4648 character for value k |
| Base64.PaddedGroupCount | src/main/java/com/gurobi/cloud/client/InstantCloudClient.java:56-58 | padding by `(3 - n % 3) % 3` fills n bytes to a whole number of 3-byte groups, adding at most 2 |
| Base64.ZeroPad | src/main/java/com/gurobi/cloud/client/InstantCloudClient.java:47-51 | a fresh array of the requested length: the input as its prefix, zeros after |
| Base64.WordSextets | src/main/java/com/gurobi/cloud/client/InstantCloudClient.java:62-68 | the four slices `(j >> 18) & 0x3f` … `j & 0x3f` of the 24-bit big-endian group value are the RFC's four 6-bit pieces of the three bytes |
| Base64.EncodeStep | src/main/java/com/gurobi/cloud/client/InstantCloudClient.java:61-68 | one turn of the loop appends the standard encoding of the next 3-byte group |
| Base64.PaddedGroupsAreStandard | src/main/java/com/gurobi/cloud/client/InstantCloudClient.java:70-71 | encoding the zero-padded input and overwriting the last p characters with `=` gives the standard encoding |
| Base64.Encode | src/main/java/com/gurobi/cloud/client/InstantCloudClient.java:53-72 | the output is the standard base64 of the input bytes |
| Base64.StandardLength | src/main/java/com/gurobi/cloud/client/InstantCloudClient.java:56-71 | n bytes encode to `4(n+p)/3` characters, where p is the padding count |
| Base64.StandardCharacters | src/main/java/com/gurobi/cloud/client/InstantCloudClient.java:65-71 | the last p characters are `=`; every other character is an alphabet character (`A`-`Z`, `a`-`z`, `0`-`9`, `+`, `/`) |
| Base64.AlphabetMembers | src/main/java/com/gurobi/cloud/client/InstantCloudClient.java:34-35 | those ranges are exactly the characters of `base64code` |
| Base64.CharInAlphabet | src/main/java/com/gurobi/cloud/client/InstantCloudClient.java:65-68 | every 6-bit value is written as an alphabet character, never as `=` |
| Base64Decoding.ValueOfChar | src/main/java/com/gurobi/cloud/client/InstantCloudClient.java:34-35 | each alphabet character reads back as its value, and none of them is `=` |
| Base64Decoding.DecodeStandard | src/main/java/com/gurobi/cloud/client/InstantCloudClient.java:53-72 | decoding the encoding returns the original bytes |
| Base64Decoding.StandardInjective | src/main/java/com/gurobi/cloud/client/InstantCloudClient.java:53-72 | two different byte strings never have the same encoding |
| Requests.FindCommand | src/main/java/com/gurobi/cloud/client/InstantCloudClient.java:103-110 | the scan stops at the entry equal to the command, otherwise at 4 (unknown); a found entry's method is the command's bound method |
| Requests.TableIsBinding | src/main/java/com/gurobi/cloud/client/InstantCloudClient.java:36-37 | `COMMANDS`/`METHOD` bind `licenses`, `machines` to GET and `launch`, `kill` to POST, and no other name |
| Requests.Url | src/main/java/com/gurobi/cloud/client/InstantCloudClient.java:117-120 | the URL is `BASE_URL` followed by the command; a GET adds `?id=` and the access id, not URL-encoded, and nothing else; a POST adds nothing |
| Requests.Canonicalize | src/main/java/com/gurobi/cloud/client/InstantCloudClient.java:113-134 | the keys are visited once each in some order; `requestStr` is the method followed by `&key=Enc(value)` per key; for POST the query is the same pairs joined by `&`, for GET it stays null; so a query exists exactly for a POST with parameters |
| Requests.PrefixedIsJoin | src/main/java/com/gurobi/cloud/client/InstantCloudClient.java:123-126 | appending `&pair` per key to the method is joining the method and the pairs with `&` |
| Requests.StringToSignAppends | src/main/java/com/gurobi/cloud/client/InstantCloudClient.java:113-141 | the signed string is the method, `&`-prefixed pairs, then `&` and the date |
| Requests.StringToSignAroundBody | src/main/java/com/gurobi/cloud/client/InstantCloudClient.java:125-141 | with parameters, the signed string is `method&query&date` |
| Requests.IdSignedOnce | src/main/java/com/gurobi/cloud/client/InstantCloudClient.java:122-126 | after `params.put("id", accessId)` the key `id` is visited exactly once, and its pair is `id=Enc(accessId)` |
| Requests.OnlyIdSigned | src/main/java/com/gurobi/cloud/client/InstantCloudClient.java:122-141 | a read command with no parameters signs exactly `GET&id=Enc(accessId)&date` |
| Requests.TwoKeyOrders | src/main/java/com/gurobi/cloud/client/InstantCloudClient.java:123 | two keys are visited in one of exactly two orders |
| Text.DecimalRoundTrip | src/main/java/com/gurobi/cloud/client/InstantCloudClient.java:251 | `String.valueOf` of an int is a non-empty run of digits, possibly after a `-`, that reads back as the int |
| Parameters.MachineIdsJson | src/main/java/com/gurobi/cloud/client/InstantCloudClient.java:229-236 | the loop builds `[`, each id between double quotes, separated by `,`, then `]` |
| Parameters.TwoIds | src/main/java/com/gurobi/cloud/client/InstantCloudClient.java:229-236 | ids `a`, `b` give `["a","b"]` |
| Parameters.NoIds | src/main/java/com/gurobi/cloud/client/InstantCloudClient.java:229-236 | no ids give `[]` |
| Parameters.UnescapedIdsCollide | src/main/java/com/gurobi/cloud/client/InstantCloudClient.java:231 | the id `a","b` is sent as the same text as the two ids `a` and `b`, because nothing is escaped |
| Parameters.LaunchParams | src/main/java/com/gurobi/cloud/client/InstantCloudClient.java:250-269 | `numMachines` is always sent, in decimal; each string setting only when non-null, with its value; `idleShutdown` in decimal exactly when it is not -1; no other key |
| Parameters.LaunchParamsDetermined | src/main/java/com/gurobi/cloud/client/InstantCloudClient.java:250-269 | the arguments determine the parameter map completely |
| Parameters.OnlyCountByDefault | src/main/java/com/gurobi/cloud/client/InstantCloudClient.java:250-269 | with every setting omitted, only `numMachines` is sent |
| Responses.DecodeLicenses | src/main/java/com/gurobi/cloud/client/InstantCloudClient.java:185-196 | fills a fresh array with the projection of each element, or fails with a decode error when the spec decoder does |
| Responses.DecodeMachines | src/main/java/com/gurobi/cloud/client/InstantCloudClient.java:202-219 | fills a fresh array with the projection of each element, or fails with a decode error when the spec decoder does |
| Responses.StringField | src/main/java/com/gurobi/cloud/client/InstantCloudClient.java:190-193 | the `(String)` cast succeeds exactly when the key is absent, `null` or a string, and then gives the string under the key or nothing; any other value is a decode error |
| Responses.LongField | src/main/java/com/gurobi/cloud/client/InstantCloudClient.java:214 | the `(Long)` cast succeeds exactly when the key is absent, `null` or an integer, and then gives the integer under the key or nothing; any other value is a decode error |
| Responses.LicenseOf | src/main/java/com/gurobi/cloud/client/InstantCloudClient.java:188-194 | a decoded element was a JSON object, and each license field is the string under its same-named key, or absent; a failure is a decode error |
| Responses.MachineOf | src/main/java/com/gurobi/cloud/client/InstantCloudClient.java:205-217 | a decoded element was a JSON object; `machineId` is the string under `_id`, `idleShutdown` the integer under its key, every other field the string under its same-named key, or absent; a failure is a decode error |
| Responses.LicenseProjection | src/main/java/com/gurobi/cloud/client/InstantCloudClient.java:188-193 | an element decodes exactly when it is an object whose four license keys hold strings, `null` or nothing; each field is its same-named key's string, absent otherwise |
| Responses.MachineProjection | src/main/java/com/gurobi/cloud/client/InstantCloudClient.java:205-216 | an element decodes exactly when it is an object with well-typed keys; `machineId` comes from `_id`, every other field from its same-named key, `idleShutdown` as an integer |
| Responses.ExtraFieldIgnored | src/main/java/com/gurobi/cloud/client/InstantCloudClient.java:205-216 | keys the client does not read leave the record unchanged |
| Responses.DecodedArray | src/main/java/com/gurobi/cloud/client/InstantCloudClient.java:185-218 | an array of k elements gives k records, record i from element i; the response decodes exactly when it is an array whose every element decodes |
| Responses.OneBadElementFails | src/main/java/com/gurobi/cloud/client/InstantCloudClient.java:204-205 | one element that fails makes the whole response fail |
| Responses.EmptyResponse | src/main/java/com/gurobi/cloud/client/InstantCloudClient.java:186 | `[]` decodes to no records, not to an error |
| Responses.OneRunningMachine | src/main/java/com/gurobi/cloud/client/InstantCloudClient.java:205-216 | `[{"_id":"m1","state":"running"}]` is one machine `m1`, running, every other field absent |
| Client.InstantCloudClient.constructor | src/main/java/com/gurobi/cloud/client/InstantCloudClient.java:38-45 | stores the credentials; `verbose` starts false |
| Client.Signature | src/main/java/com/gurobi/cloud/client/InstantCloudClient.java:84-92 | signing fails, with a signing error, exactly when the key's bytes are empty; a signature decodes back to the HMAC-SHA1 digest of the message's bytes under the key's bytes |
| Client.RequestFor | src/main/java/com/gurobi/cloud/client/InstantCloudClient.java:103-161 | an unknown command gives `UnknownCommand`; a known one fails exactly when the key is empty, with a signing error; a built request carries the command's bound method and the date, its URL starts with `BASE_URL` and the command, and only a POST has a body |
| Client.CheckStatus | src/main/java/com/gurobi/cloud/client/InstantCloudClient.java:164-177 | the body is returned exactly when the status is 200; any other status is a server error carrying the status and the body |
| Client.InstantCloudClient.SignRequest | src/main/java/com/gurobi/cloud/client/InstantCloudClient.java:82-93 | the signature is the base64 of the HMAC-SHA1 of the string under the key; an empty key fails |
| Client.InstantCloudClient.SendCommand | src/main/java/com/gurobi/cloud/client/InstantCloudClient.java:100-178 | the result is the reply to the request built from the command, the id-injected parameters in the order visited and the date: an unknown command fails with `UnknownCommand` and an empty key with `SigningError`, neither being sent; only status 200 returns the body, and any other status is a server error |
| Client.InstantCloudClient.GetLicenses | src/main/java/com/gurobi/cloud/client/InstantCloudClient.java:181-197 | sends `licenses` with no parameters; the licenses are the decoded reply, in a fresh array |
| Client.InstantCloudClient.ParseMachines | src/main/java/com/gurobi/cloud/client/InstantCloudClient.java:199-220 | parses the reply and fills a fresh array with its machines, passing earlier failures through |
| Client.InstantCloudClient.GetMachines | src/main/java/com/gurobi/cloud/client/InstantCloudClient.java:221-225 | sends `machines` with no parameters; the machines are the decoded reply |
| Client.InstantCloudClient.KillMachines | src/main/java/com/gurobi/cloud/client/InstantCloudClient.java:227-240 | sends `kill` with `machineIds` set to the id literal; the machines are the decoded reply |
| Client.InstantCloudClient.LaunchMachines | src/main/java/com/gurobi/cloud/client/InstantCloudClient.java:242-272 | sends `launch` with the launch parameters; the machines are the decoded reply |
| Client.GetRequest | src/main/java/com/gurobi/cloud/client/InstantCloudClient.java:117-157 | a read command goes to `BASE_URL + command + "?id=" + accessId`, the id not URL-encoded, with no body and the date header; the signature covers the method, the encoded pairs and the date |
| Client.PostRequest | src/main/java/com/gurobi/cloud/client/InstantCloudClient.java:117-161 | a write command goes to `BASE_URL + command` with no query; its body always exists and is the pairs joined by `&`; the signature covers `POST&body&date` |
| Client.SigningNeedsKey | src/main/java/com/gurobi/cloud/client/InstantCloudClient.java:84-85 | a known command fails before sending exactly when the key is empty, and then with a signing error |
| Client.UnknownCommandNotSent | src/main/java/com/gurobi/cloud/client/InstantCloudClient.java:108-110 | an unknown command fails with `Unknown command` for any server |
| Client.RefusalYieldsNoRecords | src/main/java/com/gurobi/cloud/client/InstantCloudClient.java:164-177 | a status other than 200 gives no records, only an error holding the status and the body |
| Client.SignatureShape | src/main/java/com/gurobi/cloud/client/InstantCloudClient.java:84-92 | a 20-byte HMAC-SHA1 digest signs as 28 characters: 27 from the alphabet, then `=` |
| Client.LicensesRequest | src/main/java/com/gurobi/cloud/client/InstantCloudClient.java:181-183 | `getLicenses` sends `GET …/licenses?id=accessId`, signed over `GET&id=Enc(accessId)&date`, with no body |
| Client.KillRequest | src/main/java/com/gurobi/cloud/client/InstantCloudClient.java:237-238 | the `kill` body is `machineIds=…&id=…` or `id=…&machineIds=…`, depending on the map's order |
| Client.SignatureDeterminesDigest | src/main/java/com/gurobi/cloud/client/InstantCloudClient.java:88-92 | equal signatures under one key mean equal HMAC digests |

## Left out

- HMAC-SHA1 (`javax.crypto.Mac`), `URLEncoder.encode` and `String.getBytes` are library routines. They are function parameters with no properties assumed. Java's form encoding of a space as `+` is not modelled.
- Date formatting (`SimpleDateFormat` with `yyyy-MM-dd'T'HH::mm'Z'` in UTC) is not modelled: the date is an input string.
- The HTTP connection, its streams and `convertStreamToString` are network I/O. They are the `server` function. I/O failures, and the "Server Error:" line printed for a failed status, are not modelled.
- JSON text parsing (json-simple) is a library routine. The model starts from a parsed `Json` value, and text that is not JSON gives `ParseError`.
- `toHexString` and every `verbose` print exist only for console output. They are not modelled. The `verbose` field itself is kept.
- The exception messages (`"Unknown command " + command`, `"Error: " + status + "\n" + body`) are modelled as the `Error` values that carry the same data, not as message text.
- `src/main/java/com/gurobi/cloud/InstantCloud.java`, the command-line front end, is not part of this model. That includes its 60-minute idle-shutdown default.
- The record classes `InstantCloudLicense` and `InstantCloudMachine` are not part of this model. They are represented as datatypes of optional fields, with `idleShutdown` an optional integer (a boxed `Long`).
- A `null` access id or secret key is not modelled. A JSON integer is not bounded to the range of `Long`.
- `sendCommand` puts `id` into the caller's own map (line 122), so the caller's map changes; `Requests.WithId` builds a new map instead. No caller here reuses its map, so nothing observable is lost. A `null` entry of `machineIds` would be written as the text `null` between quotes (line 231); the model's ids are strings and cannot be `null`.
- HashMap iteration order is not fixed. Every contract holds for every order in which the keys can be visited.
- The server is a function of the request, so two sends of one request get the same response. A server whose answers change over time is not modelled.
