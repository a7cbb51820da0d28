# error-info in Dafny

A model of the error-taxonomy derivation of the `error-code` / `error-code-derive`
crates, with proofs about it. An error enum is annotated with a type-level
`prefix` and `app_type`. Each variant carries a `code`, an `app_code` and an optional
`client_msg`. The derive macro generates a `ToErrorInfo` implementation whose
`to_error_info` maps each failure value to an `ErrorInfo`. That value holds a
parsed application code, the full diagnostic code `prefix ++ code`, a client
message, and a server message taken from the value's own display text.

Modules:

- `Wrappers` (`wrappers.dfy`): `Option` and `Result`.
- `ErrorCode` (`error_code.dfy`): the `ErrorInfo` value from `error-code/src/lib.rs`. It covers
  `new`, the fallible `try_new` the generated code calls, the `client_msg()`
  accessor, the Display and Debug renderings, and the serialised two-field shape
  with its inverse.
- `Derive` (`derive.dfy`): `error-code-derive/src/error_info.rs`. It has the attribute
  metadata (`ErrorData`, `EnumVariants`) as already-parsed records, the validation
  of `process_error_info`, the generated match arms, and dispatch of a failure
  value through its arm.
- `Decimal` (`decimal.dfy`): `u16::from_str`, the application-code parser of the
  example taxonomies, with a canonical printer as its partner.
- `Examples` (`examples.dfy`): the taxonomy of the derive crate's unit test and the
  `AppError` taxonomy of the web example, used as concrete witnesses.

The application type's `FromStr` is a parameter `parse: string -> Option<T>`.
A failure value is represented by the position of its variant and its display
text (`Instance`). The display text produced by `thiserror` is an input.

Where the sources disagree with each other, the model follows the code and
records the difference:

- The generated code calls `ErrorInfo::try_new` and returns a `Result`
  (error_info.rs:59, 75). `lib.rs` defines only a panicking `new` (lib.rs:28-40),
  and its trait declares a plain `ErrorInfo<Self::T>` return (lib.rs:20).
  The model has `New`, which requires a parsable application code. It also has
  `TryNew`, defined only as `Ok` of `New` when the parse succeeds and an error
  otherwise. Dispatch (`Derive.ToErrorInfo`) follows the generated code and
  uses `TryNew`.
- Every generated arm uses the pattern `Name::Ident(_)`, which fits only
  one-field tuple variants. The model records each variant's field shape
  (`Derive.PatternFits`). The web example's unit variant `Unknown` does not fit
  (`Examples.AppErrorPatternMismatch`), so the generated `match` would not
  type-check for that enum. Dispatch is otherwise modelled as if every variant
  carried one ignored payload.
- Nothing checks that full codes are unique. `Derive.FullCodesCollideIff`
  shows that two arms collide exactly when their variants declare the same code,
  and `Examples.DuplicateCodesAccepted` shows that such a taxonomy is accepted.
- The web example logs at warning level only for `status > 500` (web.rs:63).
  Only 501 and above are logged as warnings; a 500 is logged at info level.

## Model

| member | source | states |
|---|---|---|
| ErrorCode.New | error-code/src/lib.rs:28-40 | `code` and the client message are stored verbatim, the server message is the display text of the passed value, and the application code is the parsed `app_code`. A parse failure panics, so a parsable string is required |
| ErrorCode.TryNew | error-code-derive/src/error_info.rs:59-64 | the fallible constructor succeeds exactly when the application code parses, giving the `new` value; otherwise it reports the rejected text |
| ErrorCode.ClientMsg | error-code/src/lib.rs:44-50 | `client_msg()` is the stored client message or the server message. It equals the server message exactly when the stored one is empty or identical to it, and it is empty exactly when both are empty |
| ErrorCode.ClientMsgIgnoresServerMsg | error-code/src/lib.rs:47-49 | a non-empty stored client message is returned whatever the server message is |
| ErrorCode.RenderRoundTrip | error-code/src/lib.rs:54-64 | `"[code] msg"` splits back into `code` and `msg` when the code contains no `]` |
| ErrorCode.RenderInjective | error-code/src/lib.rs:54-64 | two renderings with the same code are equal exactly when their messages are |
| ErrorCode.Display | error-code/src/lib.rs:54-57 | Display renders the code and `client_msg()`, which can be recovered from the text when the code contains no `]` |
| ErrorCode.Debug | error-code/src/lib.rs:61-64 | Debug renders the code and the server message, which can be recovered from the text when the code contains no `]` |
| ErrorCode.DisplayDebugAgree | error-code/src/lib.rs:54-64 | Display equals Debug exactly when `client_msg()` equals the server message, that is, when the stored client message is empty or equal to it |
| ErrorCode.DisplayHidesServerMsg | error-code/src/lib.rs:54-57 | with a non-empty stored client message, Display does not depend on the server message |
| ErrorCode.Serialize | error-code/src/lib.rs:7-15 | the wire form has exactly two fields, named only `code` and `msg`. They carry the code and the stored client message (possibly empty); `app_code` and `server_msg` are skipped |
| ErrorCode.SerializeRoundTrip | error-code/src/lib.rs:7-15 | deserialising the serialised form gives back `code` and the stored client message. The skipped `app_code` and `server_msg` come back as their defaults |
| ErrorCode.Deserialize | error-code/src/lib.rs:7-15 | the derived deserialisation succeeds only with a `code` and a `msg` field taken from the input; the skipped `app_code` becomes the type's default and `server_msg` the empty string |
| ErrorCode.DeserializeMissing | error-code/src/lib.rs:7-15 | a field list with no `code` field, or no `msg` field, does not deserialise |
| ErrorCode.DeserializeDuplicate | error-code/src/lib.rs:7-15 | a field list that repeats `code`, or repeats `msg`, does not deserialise |
| ErrorCode.DeserializeIgnoresOther | error-code/src/lib.rs:7-15 | a field with any other name (including `app_code` and `server_msg`), inserted at any position, is ignored |
| ErrorCode.ValuesOfAppend | error-code/src/lib.rs:7-15 | the values found for a name in two concatenated field lists are those of the first list followed by those of the second |
| ErrorCode.DeserializeExactlyOnce | error-code/src/lib.rs:7-15 | a field list with exactly one `code` field and exactly one `msg` field, in any positions and among any other fields, deserialises to those two values with the skipped fields at their defaults |
| ErrorCode.DeserializeAnyOrder | error-code/src/lib.rs:7-15 | `msg` before `code` deserialises to the same value |
| ErrorCode.SerializeSkips | error-code/src/lib.rs:7-15 | the wire form has only the names `code` and `msg`, and is unchanged by `app_code` or `server_msg` |
| ErrorCode.SerializedMsgIsStoredField | error-code/src/lib.rs:12-13 | `msg` carries the stored client field, possibly empty, and not the `client_msg()` fallback |
| Derive.FromVariants | error-code-derive/src/error_info.rs:21-31 | variant parsing succeeds exactly when every variant gives `code`. It keeps the order and the identifiers, and an absent `app_code` or `client_msg` becomes "" |
| Derive.FromDeriveInput | error-code-derive/src/error_info.rs:9-17 | type-level parsing succeeds exactly when `prefix` and `app_type` are given and every enum variant gives `code`. It keeps the name, the keys and whether the body is an enum |
| Derive.Arms | error-code-derive/src/error_info.rs:45-68 | there is one arm per variant, in declaration order. Each arm carries the variant's identifier, application code and client message unchanged, and the full code `prefix ++ code` |
| Derive.ProcessErrorInfo | error-code-derive/src/error_info.rs:33-82 | the derivation succeeds exactly for a parsable enum. Otherwise it fails with "Can not parse input" (missing `prefix`, `app_type` or variant `code`) or "Only enum is supported". On success `T` is `app_type` and the arms match the variants one-for-one with full codes `prefix ++ code` |
| Derive.ToErrorInfo | error-code-derive/src/error_info.rs:57-65 | the instance's arm yields a value exactly when its application code parses. The value has the arm's full code and client message, and the instance's display text as server message. Otherwise the failure names the rejected text |
| Derive.DeriveThenDispatch | error-code-derive/src/error_info.rs:55-64 | end to end from the declaration: code `prefix ++ code`, client message as declared (default ""), and `client_msg()` equal to the display text exactly when the declared client message is empty or equal to it |
| Derive.PrefixInjective | error-code-derive/src/error_info.rs:55 | prepending a fixed prefix is injective |
| Derive.FullCodesCollideIff | error-code-derive/src/error_info.rs:45-68 | two arms share a full code exactly when their variants declare the same code |
| Decimal.ParseU16 | error-code/src/lib.rs:35 | `u16::from_str` rejects the empty string, a lone `+` and a leading `-`. A success means that the text after an optional `+` is all digits and denotes the returned value |
| Decimal.ParseShow | error-code/src/lib.rs:35 | the canonical text of a number parses back to it exactly when it fits in 16 bits |
| Examples.MyErrorArms | error-code-derive/src/error_info.rs:92-102 | prefix "01" gives, in order, the arms "01IC" (no client message), "01IA" ("friendly msg") and "01RE" |
| Examples.InvalidCommandScenario | error-code-derive/src/error_info.rs:94-96 | `InvalidCommand("foo")` gives code "01IC", application code 400, and `client_msg()` "Invalid command: foo" |
| Examples.InvalidArgumentScenario | error-code-derive/src/error_info.rs:97-99 | `InvalidArgument` shows "friendly msg" to clients whatever its display text |
| Examples.UnparsableAppCode | error-code/src/lib.rs:35 | an `app_code` of "not-a-number" makes dispatch fail instead of defaulting |
| Examples.MissingAppCodeFails | error-code-derive/src/error_info.rs:27-28 | a variant without `app_code` gets "", which a `u16` never parses, so its dispatch always fails |
| Examples.AppErrorArms | error-code/examples/web.rs:13-34 | the web taxonomy derives to `T = u16` with codes "0AIP", "0ANF", "0AISE" and "0AUE" |
| Examples.AppErrorPatternMismatch | error-code/examples/web.rs:31-33 | the unit variant `Unknown` does not fit the generated `(_)` pattern |
| Examples.ServerErrorScenario | error-code/examples/web.rs:24-30 | `ServerError` gives application code 500 and the fixed client message. Its display text stays in `server_msg` and appears in neither `client_msg()` nor the wire form |
| Examples.DuplicateCodesAccepted | error-code-derive/src/error_info.rs:45-68 | a taxonomy with a repeated code is accepted, and its full codes are not unique |
| Examples.RejectedInputs | error-code-derive/src/error_info.rs:40-43 | a variant without `code` or a missing `prefix` gives "Can not parse input", and a struct gives "Only enum is supported" |

## Left out

- Token-level work of `syn`, `darling`, `quote` and `proc_macro2` (attribute syntax, unknown or repeated keys, emitting the token stream). The model starts from the parsed records and ends at the list of arms.
- The darling error detail after "Can not parse input": `expect` appends the darling error to that text, and the model keeps only the fixed prefix (`Derive.CannotParse`).
- Generics (`#generics`) and lifetimes: names and types are plain strings.
- Unions as input: only enum and struct bodies are modelled. A struct is assumed to pass attribute parsing, so that it reaches "Only enum is supported".
- `FromStr` for arbitrary application types: it is a parameter. Only decimal `u16` is given concretely; it stands in for `StatusCode` in the unit-test taxonomy.
- The opaque `<T as FromStr>::Err`: a parse failure records only the rejected text.
- The Display text that `thiserror` generates for each variant: it is an input string.
- JSON encoding and escaping by `serde_json`, and borrowing `&'static str` on deserialisation: the wire form is the list of (name, value) fields.
- The Rust type checking of the generated code: the pattern and constructor mismatches are stated as facts, not as compile failures.
- The web example's server, routing, logging, backtrace capture and HTTP response building: these are I/O.
- Decimal.ParseU16: acceptance is proved only for canonical digit strings (`Decimal.ParseShow`). Texts with a leading `+` or leading zeros are parsed by the model but have no completeness lemma.
