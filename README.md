# strongSwan TNC IMC core in Dafny

This project models two pieces of strongSwan's Trusted Network Connect support and proves properties about them:

1. **The PA-TNC Remediation Instructions attribute** (`src/libimcv/ietf/ietf_attr_remediation_instr.c`). This is section 4.2.10 of RFC 5792, with the URI parameters of section 4.2.10.1 and the String parameters of section 4.2.10.2. Module `IetfRemediationInstr` has:
   - pure functions for the byte layouts (`EncodeValue`, `EncodeStringParameters`, `CapLangCode`);
   - pure functions for what a reader recovers (`ParseHeader`, `ReadStringParameters`, `ProcessValue`);
   - the class `RemediationInstr`, whose `Build` and `Process` methods fill in its fields as the C object's methods do.
2. **The Android Integrity Measurement Collector** (`src/frontends/android/jni/libandroidbridge/byod/imc_android.c`). These are the IF-IMC entry points of sections 3.8.1 to 3.8.8 of the TCG TNC IF-IMC Specification 1.3. Module `ImcAndroid` has:
   - the process-wide IMC as the class `Imc`; its `agent` field is the global `imc_android` pointer;
   - the agent's per-connection registry as the class `Agent`, holding a `map` from connection id to record;
   - the outbound message as the class `ImcMsg`, built up by loops over the inbound attributes and the request entries;
   - the reply contents as pure functions (`Measurement`, `Requested`, `Reply`, `Baseline`, `ReceiveOutcome`) with lemmas about them.

Helper modules:
- `Bytes`: octets, 32-bit numbers and big-endian 24- and 32-bit fields.
- `Pen`: vendor-namespaced types and the type numbers.
- `Wrappers`: `Option`.

Octets are `Byte = 0..255`. The model gives the outside collaborators of the IMC as inputs:
- The measurement provider is a function `(PenType, Option<seq<string>>) -> Option<seq<Byte>>`.
- The result of `imc_agent_create` is an `Agent?` argument of `Initialize`: a new agent with no connection records, or null when creation failed.
- The parse of an inbound message is a `Received(result, fatalError, attrs)` argument.
- The transport's answer to a send is a `sendResult` argument. The messages handed over are logged in `Imc.sent`.
- The `android.imc.send_os_info` setting is a `bool` argument.
- The result of `bind_functions` is a `bindResult` argument.

What the code decides:
- The handshake notification always sets the evaluation result to "don't know". The code calls `set_result` unconditionally.
- Remediation Instructions has no 4-octet length field of its own. The value layout is 1 + 3 + 4 octets.
- For an embedded NUL in the remediation string, `process` reports offset `9 + i`, as the code computes. The NUL octet itself sits at `12 + i` in the attribute value. The model keeps the code's value.

## Model

| member | source | states |
|---|---|---|
| `Bytes.Uint24Bytes` | src/libimcv/ietf/ietf_attr_remediation_instr.c:153 | three octets whose big-endian reading is the number |
| `Bytes.Uint32Bytes` | src/libimcv/ietf/ietf_attr_remediation_instr.c:154 | four octets whose big-endian reading is the number |
| `Bytes.Uint24At` | src/libimcv/ietf/ietf_attr_remediation_instr.c:178 | a 24-bit read is below 2^24; it is the big-endian value of the three octets, inverted by Uint24Bytes and Uint24Canonical |
| `Bytes.Uint32At` | src/libimcv/ietf/ietf_attr_remediation_instr.c:179 | the big-endian value of four octets, also the length read at line 192; its type bounds it below 2^32, and Uint32Bytes with Uint32Canonical show it is the inverse of the writer |
| `Bytes.Uint24Canonical` | src/libimcv/ietf/ietf_attr_remediation_instr.c:178 | writing a 24-bit field that was read gives back the same three octets |
| `Bytes.Uint32Canonical` | src/libimcv/ietf/ietf_attr_remediation_instr.c:179 | writing a 32-bit field that was read gives back the same four octets |
| `IetfRemediationInstr.FirstNul` | src/libimcv/ietf/ietf_attr_remediation_instr.c:197-198 | the memchr search: none exactly when no octet is NUL; otherwise the index of a NUL with no NUL before it |
| `IetfRemediationInstr.EncodeValue` | src/libimcv/ietf/ietf_attr_remediation_instr.c:151-157 | the built value has length 8 + parameters; octet 0 is the reserved 0x00; octets 1-3 read as the low 24 bits of the vendor id; octets 4-7 read as the parameters type; the rest is the parameters |
| `IetfRemediationInstr.CapLangCode` | src/libimcv/ietf/ietf_attr_remediation_instr.c:319-320 | the language code is a prefix of at most 255 octets; a shorter code is kept whole, a longer one is cut to exactly 255 |
| `IetfRemediationInstr.EncodeStringParameters` | src/libimcv/ietf/ietf_attr_remediation_instr.c:322-324 | the layout is the 32-bit length (mod 2^32), the string, a 1-octet length, then the language code |
| `IetfRemediationInstr.ParseHeader` | src/libimcv/ietf/ietf_attr_remediation_instr.c:169-182 | nothing is read exactly when the value is shorter than 8; otherwise the parameters are everything after octet 8, the parameters type is (octets 1-3, octets 4-7) read big-endian, and the vendor id is below 2^24 |
| `IetfRemediationInstr.ReadStringParameters` | src/libimcv/ietf/ietf_attr_remediation_instr.c:188-213 | a truncated length or string gives `Failed`, offset 8, nothing read. A read string is what its length prefix announces. A NUL gives `Failed` with offset 9 + first NUL index. Otherwise the offset is 12 + string length. Success exactly when the language code was read. The code then holds at most 255 octets and is the one-octet-length-prefixed field after the string |
| `IetfRemediationInstr.EncodingIsPrefix` | src/libimcv/ietf/ietf_attr_remediation_instr.c:322-324 | octets holding the 32-bit length, the string, the 1-octet code length and the code, in that order, start with the encoding of that string and code |
| `IetfRemediationInstr.ReadStringIsPrefix` | src/libimcv/ietf/ietf_attr_remediation_instr.c:192-211 | after a successful read, the parameters start with the encoding of the string and language code that were read |
| `IetfRemediationInstr.ProcessValue` | src/libimcv/ietf/ietf_attr_remediation_instr.c:161-217 | what `process` yields from a value: a header exactly when the value has 8 octets or more, with parameters value[8..]; a string only for IETF String parameters, a language code only after a string; `Success` exactly when the header was read and the parameters are not String or the language code was read. See BuildThenParse, ParseThenBuild, ReservedIgnored, OffsetWithinValue, StringAttributeRoundTrip |
| `IetfRemediationInstr.ShortValueRejected` | src/libimcv/ietf/ietf_attr_remediation_instr.c:169-175 | a value shorter than 8 octets gives `Failed`, offset 0, and nothing read |
| `IetfRemediationInstr.BuildThenParse` | src/libimcv/ietf/ietf_attr_remediation_instr.c:151-182 | for a vendor id below 2^24, reading back a built value recovers the parameters type and the parameters |
| `IetfRemediationInstr.ParseThenBuild` | src/libimcv/ietf/ietf_attr_remediation_instr.c:151-182 | writing a parsed header again reproduces the value, except for the reserved octet |
| `IetfRemediationInstr.ReservedIgnored` | src/libimcv/ietf/ietf_attr_remediation_instr.c:177 | changing the reserved octet does not change anything `process` yields |
| `IetfRemediationInstr.OtherParametersAccepted` | src/libimcv/ietf/ietf_attr_remediation_instr.c:185-216 | any parameters type other than IETF/String gives `Success`, offset 0, and parameters = value[8..] |
| `IetfRemediationInstr.OffsetWithinValue` | src/libimcv/ietf/ietf_attr_remediation_instr.c:188-213 | the reported offset never exceeds the value length |
| `IetfRemediationInstr.TruncatedStringRejected` | src/libimcv/ietf/ietf_attr_remediation_instr.c:189-196 | cutting a length-prefixed string short anywhere gives `Failed` at offset 8 |
| `IetfRemediationInstr.NulRejected` | src/libimcv/ietf/ietf_attr_remediation_instr.c:197-203 | a first NUL at string index i gives `Failed` at offset 9 + i, with the string read and no language code |
| `IetfRemediationInstr.LangCodeTruncated` | src/libimcv/ietf/ietf_attr_remediation_instr.c:204-210 | a NUL-free string followed by a missing or short language code gives `Failed` at offset 12 + string length |
| `IetfRemediationInstr.StringParametersRoundTrip` | src/libimcv/ietf/ietf_attr_remediation_instr.c:192-211 | the encoding of a NUL-free string and its code reads back to `Success`, offset 12 + length, the same string and code; trailing octets are ignored |
| `IetfRemediationInstr.StringAttributeRoundTrip` | src/libimcv/ietf/ietf_attr_remediation_instr.c:312-330 | `process` on the built value of a string attribute yields `Success`, the string and the code capped at 255 octets |
| `IetfRemediationInstr.RemediationInstr.Create` | src/libimcv/ietf/ietf_attr_remediation_instr.c:268-297 | the attribute type is (IETF, Remediation Instructions), the given parameters type and parameters are stored, and no value is set |
| `IetfRemediationInstr.RemediationInstr.FromData` | src/libimcv/ietf/ietf_attr_remediation_instr.c:335-360 | the attribute type is (IETF, Remediation Instructions), the data becomes the value, and the parameters are empty |
| `IetfRemediationInstr.RemediationInstr.SetNoskipFlag` | src/libimcv/ietf/ietf_attr_remediation_instr.c:135-139 | the flag takes the given value; no other field changes |
| `IetfRemediationInstr.RemediationInstr.Build` | src/libimcv/ietf/ietf_attr_remediation_instr.c:141-159 | a value already present is kept (so building twice changes nothing); otherwise the value becomes `EncodeValue(parametersType, parameters)`; nothing but the value changes |
| `IetfRemediationInstr.RemediationInstr.Process` | src/libimcv/ietf/ietf_attr_remediation_instr.c:161-217 | the status and offset are those of `ProcessValue(value)`. The parameter fields are set only when the header was read. The string and the language code are set only when their reads succeeded; otherwise these fields keep their old contents |
| `IetfRemediationInstr.CreateFromUri` | src/libimcv/ietf/ietf_attr_remediation_instr.c:302-307 | the parameters type is (IETF, URI) and `GetUri` returns the URI unchanged |
| `IetfRemediationInstr.CreateFromString` | src/libimcv/ietf/ietf_attr_remediation_instr.c:312-330 | the parameters type is (IETF, String) and the parameters are the string encoded with the language code capped at 255 octets |
| `IetfRemediationInstr.StringRoundTrip` | src/libimcv/ietf/ietf_attr_remediation_instr.c:255-263 | a NUL-free string attribute is built and processed from its bytes by another object. `get_string` then returns the string and the capped language code; status `Success`, offset 12 + length |
| `IetfRemediationInstr.UriRoundTrip` | src/libimcv/ietf/ietf_attr_remediation_instr.c:249-253 | a URI attribute is built and processed from its bytes. The result is `Success`, offset 0, parameters type (IETF, URI), and `get_uri` returns the URI |
| `IetfRemediationInstr.FromDataKeepsValue` | src/libimcv/ietf/ietf_attr_remediation_instr.c:146-149 | building an attribute made from non-empty data leaves its bytes unchanged |
| `ImcAndroid.Measurement` | src/frontends/android/jni/libandroidbridge/byod/imc_android.c:243-248 | add_measurement's contribution: empty exactly when the provider has no data for the type and arguments, otherwise one attribute of that type carrying the provider's data |
| `ImcAndroid.Requested` | src/frontends/android/jni/libandroidbridge/byod/imc_android.c:278-282 | the entry loop's reply: at most one attribute per entry. RequestedAppend and RequestedIsAvailable pin it down, in order, against the available types |
| `ImcAndroid.IetfReply` | src/frontends/android/jni/libandroidbridge/byod/imc_android.c:268-285 | an IETF attribute other than Attribute Request contributes nothing; an Attribute Request contributes at most one attribute per entry |
| `ImcAndroid.ItaReply` | src/frontends/android/jni/libandroidbridge/byod/imc_android.c:290-301 | an ITA attribute other than Get Settings contributes nothing; Get Settings contributes at most one attribute, of type (ITA, Settings) |
| `ImcAndroid.AttrReply` | src/frontends/android/jni/libandroidbridge/byod/imc_android.c:362-372 | the dispatch by vendor id, then type: only an IETF Attribute Request or an ITA Get Settings contributes, with the bounds above |
| `ImcAndroid.Reply` | src/frontends/android/jni/libandroidbridge/byod/imc_android.c:357-373 | the reply to the attribute loop, the concatenation of each attribute's AttrReply in order. NothingRequested, ReplyAppend and OthersIgnored state its properties |
| `ImcAndroid.Baseline` | src/frontends/android/jni/libandroidbridge/byod/imc_android.c:327-330 | BeginHandshake's message holds at most the product information and string version measurements, and both exactly when the provider has both |
| `ImcAndroid.ReceiveOutcome` | src/frontends/android/jni/libandroidbridge/byod/imc_android.c:349-386 | a failed parse passes its result through, a fatal error gives `Fatal`; exactly one message is sent when neither happened, and it is exclusive, for the connection, holds `Reply` of the attributes, and the result is the transport's |
| `ImcAndroid.RequestedAppend` | src/frontends/android/jni/libandroidbridge/byod/imc_android.c:278-282 | the reply to a concatenation of request entries is the concatenation of the replies |
| `ImcAndroid.AvailableAppend` | src/frontends/android/jni/libandroidbridge/byod/imc_android.c:243-248 | the available types of a concatenation of entries are the concatenation of the available types |
| `ImcAndroid.RequestedIsAvailable` | src/frontends/android/jni/libandroidbridge/byod/imc_android.c:271-284 | an Attribute Request is answered, in order, by exactly one attribute per requested type the provider has data for. Each answer carries that type and the provider's data |
| `ImcAndroid.AllAvailable` | src/frontends/android/jni/libandroidbridge/byod/imc_android.c:278-282 | when the provider has every requested type, every entry is answered, in order |
| `ImcAndroid.NoneAvailable` | src/frontends/android/jni/libandroidbridge/byod/imc_android.c:243-262 | when the provider has none of the types, the reply is empty |
| `ImcAndroid.AvailableWithout` | src/frontends/android/jni/libandroidbridge/byod/imc_android.c:243-248 | if exactly the k-th requested type is unavailable, the available types are the request with entry k removed |
| `ImcAndroid.OneUnavailable` | src/frontends/android/jni/libandroidbridge/byod/imc_android.c:243-282 | if exactly one of N requested types is unavailable, the other N - 1 are answered, in order |
| `ImcAndroid.ReplyAppend` | src/frontends/android/jni/libandroidbridge/byod/imc_android.c:357-373 | the reply to a concatenation of inbound attributes is the concatenation of the replies |
| `ImcAndroid.NothingRequested` | src/frontends/android/jni/libandroidbridge/byod/imc_android.c:357-373 | with no Attribute Request and no Get Settings among the inbound attributes, the reply is empty |
| `ImcAndroid.OthersIgnored` | src/frontends/android/jni/libandroidbridge/byod/imc_android.c:362-372 | an attribute that is neither an IETF Attribute Request nor an ITA Get Settings adds nothing to the reply, wherever it stands |
| `ImcAndroid.ScenarioReply` | src/frontends/android/jni/libandroidbridge/byod/imc_android.c:271-284 | an Attribute Request for product information, string version and a type the provider lacks is answered by the first two, in order |
| `ImcAndroid.Agent.constructor` | src/frontends/android/jni/libandroidbridge/byod/imc_android.c:78-79 | a new agent has no connection records |
| `ImcAndroid.Agent.CreateState` | src/frontends/android/jni/libandroidbridge/byod/imc_android.c:111-113 | a new id gets a record in state CREATE with no result; an existing id is refused and nothing changes |
| `ImcAndroid.Agent.ChangeState` | src/frontends/android/jni/libandroidbridge/byod/imc_android.c:115-116 | a known id moves to the new state and keeps its result; an unknown id is refused and nothing changes |
| `ImcAndroid.Agent.DeleteState` | src/frontends/android/jni/libandroidbridge/byod/imc_android.c:123-124 | a known id loses its record; an unknown id is refused and nothing changes |
| `ImcAndroid.Agent.SetResult` | src/frontends/android/jni/libandroidbridge/byod/imc_android.c:120-121 | the connection's result becomes the given one; its state is kept |
| `ImcAndroid.ImcMsg.constructor` | src/frontends/android/jni/libandroidbridge/byod/imc_android.c:325-326 | a new outbound message for the connection holds no attributes |
| `ImcAndroid.ImcMsg.AddAttribute` | src/frontends/android/jni/libandroidbridge/byod/imc_android.c:246 | the attribute is appended at the end |
| `ImcAndroid.AddMeasurement` | src/frontends/android/jni/libandroidbridge/byod/imc_android.c:237-263 | appends exactly the provider's attribute when there is one; otherwise the message is unchanged |
| `ImcAndroid.HandleIetfAttribute` | src/frontends/android/jni/libandroidbridge/byod/imc_android.c:268-285 | an Attribute Request appends one measurement per entry with no arguments, in order; any other IETF type appends nothing |
| `ImcAndroid.HandleItaAttribute` | src/frontends/android/jni/libandroidbridge/byod/imc_android.c:290-301 | a Get Settings appends one (ITA, Settings) measurement with the setting names as arguments; any other ITA type appends nothing |
| `ImcAndroid.Imc.constructor` | src/frontends/android/jni/libandroidbridge/byod/imc_android.c:53 | the IMC starts uninitialised, with nothing sent |
| `ImcAndroid.Imc.Initialize` | src/frontends/android/jni/libandroidbridge/byod/imc_android.c:68-93 | when already initialised, the result is `AlreadyInitialized` and nothing changes. A failed agent creation gives `Fatal` and stays uninitialised. Otherwise the agent, which has no connection records yet, is installed and libpts initialised; the result is `NoCommonVersion` when min > 1 or max < 1, else `Success` |
| `ImcAndroid.Imc.NotifyConnectionChange` | src/frontends/android/jni/libandroidbridge/byod/imc_android.c:98-129 | `NotInitialized` when uninitialised. CREATE, DELETE and other states return the registry's result and change. HANDSHAKE gives `Fatal` for an unknown id; otherwise the record moves to HANDSHAKE with result DONT_KNOW, and the result is `Success` |
| `ImcAndroid.Imc.Send` | src/frontends/android/jni/libandroidbridge/byod/imc_android.c:380-383 | the message, with its exclusive flag, is appended to what was sent; the transport's result is returned |
| `ImcAndroid.Imc.BeginHandshake` | src/frontends/android/jni/libandroidbridge/byod/imc_android.c:306-337 | `NotInitialized`, or `Fatal` for an unknown connection, with nothing sent. With the setting off, `Success` and nothing sent. Otherwise one non-exclusive message is sent with the available product information and string version measurements, in that order, and the send result is returned |
| `ImcAndroid.Imc.ReceiveParsed` | src/frontends/android/jni/libandroidbridge/byod/imc_android.c:339-387 | a failed parse returns its result and sends nothing. A fatal parse returns `Fatal` and sends nothing. Otherwise one exclusive message is sent holding `Reply` of the attributes, and the send result is returned |
| `ImcAndroid.Imc.ReceiveMessage` | src/frontends/android/jni/libandroidbridge/byod/imc_android.c:393-418 | `NotInitialized`, or `Fatal` for an unknown connection, with nothing sent; otherwise the outcome of the reply step |
| `ImcAndroid.Imc.ReceiveMessageLong` | src/frontends/android/jni/libandroidbridge/byod/imc_android.c:423-453 | the same as `ReceiveMessage` |
| `ImcAndroid.Imc.BatchEnding` | src/frontends/android/jni/libandroidbridge/byod/imc_android.c:458-467 | `NotInitialized` when uninitialised, else `Success` |
| `ImcAndroid.Imc.Terminate` | src/frontends/android/jni/libandroidbridge/byod/imc_android.c:472-484 | `NotInitialized` and no change when uninitialised; otherwise libpts is shut down, the agent dropped, and the result is `Success` |
| `ImcAndroid.Imc.ProvideBindFunction` | src/frontends/android/jni/libandroidbridge/byod/imc_android.c:489-498 | `NotInitialized` when uninitialised, else the result of binding |
| `ImcAndroid.InitializeTwice` | src/frontends/android/jni/libandroidbridge/byod/imc_android.c:73-91 | the first Initialize gives `Success` or `NoCommonVersion`, depending on the versions. The second gives `AlreadyInitialized` in both cases |
| `ImcAndroid.AfterTerminate` | src/frontends/android/jni/libandroidbridge/byod/imc_android.c:474-483 | after a successful Terminate, every entry point but Initialize, including a second Terminate, gives `NotInitialized` |
| `ImcAndroid.CreateTwice` | src/frontends/android/jni/libandroidbridge/byod/imc_android.c:111-113 | a second CREATE notification for the same connection is refused |
| `ImcAndroid.AttributeRequestScenario` | src/frontends/android/jni/libandroidbridge/byod/imc_android.c:358-383 | the request lists product information, string version and an unknown type, and the provider knows the first two. The reply then holds those two, in order, and the result is `Success` |

The getters (`GetType`, `GetValue`, `GetNoskipFlag`, `GetParametersType`, `GetParameters`, `GetUri`, `GetString`, lines 117-133 and 237-263) are plain field reads. So is `Agent.HasState`, which stands for `get_state`. Their behaviour enters through the contracts above.

## Left out

- JNI bridging is replaced by the provider function. This covers `string_array_create`, the inside of `get_measurement` (thread attach and detach, method lookup, array pinning, exception checks) and `imc_android_register`. The provider answers each request the same way within a call; a provider that blocks or answers differently over time is not modelled.
- Diagnostics are not modelled: log output, and the `%N` name-table lookup when a measurement is missing.
- `libpts_init`/`libpts_deinit` are the boolean `ptsInitialized`. `bind_functions` is its result argument. `actual_version`, set inside `imc_agent_create`, is not modelled.
- The agent's registry rules are not part of this model: they live in imc_agent, whose code is not included.
  - The registry is a map: `get_state` is a key lookup, and a create, change or delete is refused exactly when the key is present (create) or absent (change, delete).
  - All refusals return the one code `Agent.failure`, fixed when the agent is made.
  - A change to a state value that the agent itself might reject is not modelled.
  - A new record has no evaluation result; `set_result` ignores the IMC id.
- Message framing is not modelled: imc_msg's parsing, `create_from_data`/`create_from_long_data`, and the PA-TNC message header.
  - An inbound message is the parse outcome `Received`, so the raw buffer is not an input. `ReceiveMessage` accepts `msgType` and ignores it, and `ReceiveMessageLong` accepts the flags, vendor id, subtype and routing ids and ignores them.
  - The parser is required to decode Attribute Request and Get Settings attributes into their lists (`WellTyped`).
  - The routing ids of a reply (swapped by `create_as_reply`, and carried by `ReceiveMessageLong`) are not recorded. Neither is the message type of the BeginHandshake message or the supported types list `msg_types`.
- `ImcAndroid.Imc.Initialize`: demands of `created` that it holds no connection records, which is what a freshly made agent from `imc_agent_create` has; an agent reused with old records is outside the model.
- Only the six named `ConnectionState` values are modelled; other numeric values are not.
- Reference counting (`get_ref`, `destroy`) and the copies made by `chunk_clone` are not modelled. Values are immutable sequences here.
- bio_writer/bio_reader are not part of this model. The writer is modelled as appending big-endian fields. A failed reader call is taken to leave its output unassigned. `build`'s test of `value.ptr` is modelled as "value is non-empty", because cloning an empty chunk yields the null chunk.
- `IetfRemediationInstr.RemediationInstr.Process`: the `u_int32_t` offset is unbounded here. It would wrap only for a string length above 2^32 - 13.
- `IetfRemediationInstr.RemediationInstr.FromData`: in the C code, this constructor's method table has no `get_noskip_flag`/`set_noskip_flag` entries. Calling them on such an object would dereference a null pointer. The model gives every object both accessors.
- Concurrency across connections is not modelled: the model is sequential.
