/** The runtime contract of the error taxonomy (error-code/src/lib.rs): the
    `ErrorInfo` value, its constructor, the client-message accessor with its
    fallback, the client-facing and server-facing renderings, and the shape
    the value takes on the wire. */
module ErrorCode {
  import opened Wrappers

  /** One runtime error description.  `appCode` is the parsed application
      status (an HTTP status, say) and never leaves the process; `code` is the
      full diagnostic code such as "01E739"; `clientMsg` is the stored client
      text, possibly empty; `serverMsg` is the display text of the error
      instance, for server logs only. */
  datatype ErrorInfo<T> = ErrorInfo(appCode: T, code: string, clientMsg: string, serverMsg: string)

  /** A failed parse of an `app_code` string.  The application type's own
      parse error is opaque here; the value records the rejected text. */
  datatype ParseFailure = ParseFailure(appCode: string)

  /** `ErrorInfo::new`.  The application code is parsed with the application
      type's `FromStr` (`parse`); a failed parse panics in the source, so the
      caller must supply a parsable string.  `display` is the text the passed
      value renders to. */
  function New<T>(parse: string -> Option<T>, appCode: string, code: string, clientMsg: string,
                  display: string): (e: ErrorInfo<T>)
    requires parse(appCode).Some?
    ensures parse(appCode) == Some(e.appCode)
    ensures e.code == code && e.clientMsg == clientMsg
    ensures e.serverMsg == display
  {
    ErrorInfo(parse(appCode).value, code, clientMsg, display)
  }

  /** The fallible constructor the generated dispatch calls: `Ok` of the
      `new` value when the application code parses, an error otherwise. */
  function TryNew<T>(parse: string -> Option<T>, appCode: string, code: string, clientMsg: string,
                     display: string): (r: Result<ErrorInfo<T>, ParseFailure>)
    ensures r.Ok? <==> parse(appCode).Some?
    ensures r.Ok? ==> r.value == New(parse, appCode, code, clientMsg, display)
    ensures r.Err? ==> r.error == ParseFailure(appCode)
  {
    match parse(appCode)
    case Some(_) => Ok(New(parse, appCode, code, clientMsg, display))
    case None => Err(ParseFailure(appCode))
  }

  /** The `client_msg()` accessor: the stored client message, or the server
      message when the stored one is empty. */
  function ClientMsg<T>(e: ErrorInfo<T>): (m: string)
    ensures m == e.clientMsg || m == e.serverMsg
    ensures m == e.serverMsg <==> e.clientMsg == [] || e.clientMsg == e.serverMsg
    ensures m == [] <==> e.clientMsg == [] && e.serverMsg == []
  {
    if e.clientMsg == [] then e.serverMsg else e.clientMsg
  }

  /** A non-empty stored client message is returned whatever the server
      message is. */
  lemma ClientMsgIgnoresServerMsg<T>(e: ErrorInfo<T>, other: string)
    requires e.clientMsg != []
    ensures ClientMsg(e.(serverMsg := other)) == ClientMsg(e) == e.clientMsg
  {
  }

  /** The shared `"[{code}] {msg}"` layout of both renderings. */
  function Render(code: string, msg: string): string {
    "[" + code + "] " + msg
  }

  /** The first position at or after `from` where `c` occurs in `s`. */
  function IndexOf(s: string, c: char, from: nat): (r: Option<nat>)
    requires from <= |s|
    ensures r.Some? ==> from <= r.value < |s| && s[r.value] == c
    ensures r.Some? ==> forall j :: from <= j < r.value ==> s[j] != c
    ensures r.None? ==> forall j :: from <= j < |s| ==> s[j] != c
    decreases |s| - from
  {
    if from == |s| then None
    else if s[from] == c then Some(from)
    else IndexOf(s, c, from + 1)
  }

  /** Splits a rendering `"[code] msg"` back into its code and message; the
      code ends at the first ']'. */
  function Unrender(s: string): Option<(string, string)> {
    if |s| == 0 || s[0] != '[' then None
    else
      match IndexOf(s, ']', 1)
      case None => None
      case Some(k) =>
        if k + 1 < |s| && s[k + 1] == ' ' then Some((s[1..k], s[k + 2..])) else None
  }

  /** A rendering can be split back into its parts whenever the code holds no ']'. */
  lemma RenderRoundTrip(code: string, msg: string)
    ensures ']' !in code ==> Unrender(Render(code, msg)) == Some((code, msg))
  {
    if ']' !in code {
      var s := Render(code, msg);
      var k := |code| + 1;
      assert s[k] == ']';
      assert forall j :: 1 <= j < k ==> s[j] == code[j - 1];
      var found := IndexOf(s, ']', 1);
      assert found == Some(k);
      assert s[k + 1] == ' ';
      assert s[1..k] == code;
      assert s[k + 2..] == msg;
    }
  }

  /** Two renderings with the same code are equal only when their messages are. */
  lemma RenderInjective(code: string, a: string, b: string)
    ensures Render(code, a) == Render(code, b) <==> a == b
  {
    if Render(code, a) == Render(code, b) {
      var n := |code| + 3;
      assert a == Render(code, a)[n..];
      assert b == Render(code, b)[n..];
    }
  }

  /** Display, the client-facing form: `"[{code}] {client_msg()}"`. */
  function Display<T>(e: ErrorInfo<T>): (s: string)
    ensures ']' !in e.code ==> Unrender(s) == Some((e.code, ClientMsg(e)))
  {
    RenderRoundTrip(e.code, ClientMsg(e));
    Render(e.code, ClientMsg(e))
  }

  /** Debug, the server-log form: `"[{code}] {server_msg}"`. */
  function Debug<T>(e: ErrorInfo<T>): (s: string)
    ensures ']' !in e.code ==> Unrender(s) == Some((e.code, e.serverMsg))
  {
    RenderRoundTrip(e.code, e.serverMsg);
    Render(e.code, e.serverMsg)
  }

  /** The two renderings coincide exactly when `client_msg()` is the server
      message, that is when the stored client message is empty or equal to
      the server message. */
  lemma DisplayDebugAgree<T>(e: ErrorInfo<T>)
    ensures Display(e) == Debug(e) <==> ClientMsg(e) == e.serverMsg
    ensures Display(e) == Debug(e) <==> e.clientMsg == [] || e.clientMsg == e.serverMsg
  {
    RenderInjective(e.code, ClientMsg(e), e.serverMsg);
  }

  /** With a non-empty stored client message, Display does not depend on the
      server message, so no server detail reaches the client form. */
  lemma DisplayHidesServerMsg<T>(e: ErrorInfo<T>, other: string)
    requires e.clientMsg != []
    ensures Display(e.(serverMsg := other)) == Display(e)
  {
  }

  /** One serialised field: its external name and its value. */
  datatype Field = Field(name: string, value: string)

  const CodeKey: string := "code"
  const MsgKey: string := "msg"

  /** The serialised shape: `code`, then the stored client message under the
      external name `msg`.  `app_code` and `server_msg` are skipped. */
  function Serialize<T>(e: ErrorInfo<T>): (fields: seq<Field>)
    ensures |fields| == 2
    ensures forall f :: f in fields ==> f.name == CodeKey || f.name == MsgKey
    ensures Field(CodeKey, e.code) in fields && Field(MsgKey, e.clientMsg) in fields
  {
    [Field(CodeKey, e.code), Field(MsgKey, e.clientMsg)]
  }

  /** The values given for `name`, in order. */
  function ValuesOf(fields: seq<Field>, name: string): (vs: seq<string>)
    ensures |vs| <= |fields|
    ensures forall v :: v in vs <==> exists i :: 0 <= i < |fields| && fields[i] == Field(name, v)
    decreases |fields|
  {
    if |fields| == 0 then []
    else
      var rest := ValuesOf(fields[1..], name);
      if fields[0].name == name then [fields[0].value] + rest else rest
  }

  /** Deserialisation of the two-field shape: each of `code` and `msg` must
      occur exactly once (a missing or duplicate field is an error), any other
      field is ignored, and the skipped fields take their defaults: the
      application type's default value and the empty server message. */
  function Deserialize<T>(fields: seq<Field>, default: T): (r: Option<ErrorInfo<T>>)
    ensures r.Some? ==> Field(CodeKey, r.value.code) in fields && Field(MsgKey, r.value.clientMsg) in fields
    ensures r.Some? ==> r.value.appCode == default && r.value.serverMsg == []
  {
    var codes := ValuesOf(fields, CodeKey);
    var msgs := ValuesOf(fields, MsgKey);
    if |codes| == 1 && |msgs| == 1 then
      assert codes[0] in codes && msgs[0] in msgs;
      Some(ErrorInfo(default, codes[0], msgs[0], []))
    else None
  }

  /** Two fields with the same name give at least two values for it. */
  lemma {:induction false} ValuesOfRepeated(fields: seq<Field>, name: string, i: nat, j: nat)
    requires i < j < |fields|
    requires fields[i].name == name && fields[j].name == name
    ensures |ValuesOf(fields, name)| >= 2
    decreases |fields|
  {
    if i == 0 {
      assert fields[1..][j - 1] == fields[j];
      assert fields[j].value in ValuesOf(fields[1..], name);
    } else {
      assert fields[1..][i - 1] == fields[i] && fields[1..][j - 1] == fields[j];
      ValuesOfRepeated(fields[1..], name, i - 1, j - 1);
    }
  }

  /** A field list without `code`, or without `msg`, does not deserialise. */
  lemma DeserializeMissing<T>(fields: seq<Field>, default: T, name: string)
    requires name == CodeKey || name == MsgKey
    requires forall i :: 0 <= i < |fields| ==> fields[i].name != name
    ensures Deserialize(fields, default).None?
  {
  }

  /** A field list that repeats `code`, or repeats `msg`, does not deserialise. */
  lemma DeserializeDuplicate<T>(fields: seq<Field>, default: T, name: string, i: nat, j: nat)
    requires name == CodeKey || name == MsgKey
    requires i < j < |fields| && fields[i].name == name && fields[j].name == name
    ensures Deserialize(fields, default).None?
  {
    ValuesOfRepeated(fields, name, i, j);
  }

  /** `ValuesOf` distributes over concatenation. */
  lemma {:induction false} ValuesOfAppend(a: seq<Field>, b: seq<Field>, name: string)
    ensures ValuesOf(a + b, name) == ValuesOf(a, name) + ValuesOf(b, name)
    decreases |a|
  {
    if |a| == 0 {
      assert a + b == b;
    } else {
      assert (a + b)[0] == a[0];
      assert (a + b)[1..] == a[1..] + b;
      ValuesOfAppend(a[1..], b, name);
      if a[0].name == name {
        assert [a[0].value] + (ValuesOf(a[1..], name) + ValuesOf(b, name))
            == ([a[0].value] + ValuesOf(a[1..], name)) + ValuesOf(b, name);
      }
    }
  }

  /** A name no field gives has no values. */
  lemma {:induction false} ValuesOfAbsent(fields: seq<Field>, name: string)
    requires forall k :: 0 <= k < |fields| ==> fields[k].name != name
    ensures ValuesOf(fields, name) == []
    decreases |fields|
  {
    if |fields| > 0 {
      assert forall k :: 0 <= k < |fields[1..]| ==> fields[1..][k] == fields[k + 1];
      ValuesOfAbsent(fields[1..], name);
    }
  }

  /** A name given by exactly one field has exactly that field's value. */
  lemma {:induction false} ValuesOfOnce(fields: seq<Field>, name: string, i: nat)
    requires i < |fields| && fields[i].name == name
    requires forall k :: 0 <= k < |fields| && k != i ==> fields[k].name != name
    ensures ValuesOf(fields, name) == [fields[i].value]
    decreases |fields|
  {
    var rest := fields[1..];
    if i == 0 {
      assert forall k :: 0 <= k < |rest| ==> rest[k] == fields[k + 1];
      ValuesOfAbsent(rest, name);
    } else {
      assert forall k :: 0 <= k < |rest| ==> rest[k] == fields[k + 1];
      ValuesOfOnce(rest, name, i - 1);
    }
  }

  /** A list with exactly one `code` field and exactly one `msg` field, in
      any positions and among any other fields, deserialises to those two
      values. */
  lemma DeserializeExactlyOnce<T>(fields: seq<Field>, default: T, i: nat, j: nat)
    requires i < |fields| && fields[i].name == CodeKey
    requires j < |fields| && fields[j].name == MsgKey
    requires forall k :: 0 <= k < |fields| && k != i ==> fields[k].name != CodeKey
    requires forall k :: 0 <= k < |fields| && k != j ==> fields[k].name != MsgKey
    ensures Deserialize(fields, default) == Some(ErrorInfo(default, fields[i].value, fields[j].value, []))
  {
    ValuesOfOnce(fields, CodeKey, i);
    ValuesOfOnce(fields, MsgKey, j);
  }

  /** A field with any other name is ignored, wherever it stands. */
  lemma DeserializeIgnoresOther<T>(f: Field, fields: seq<Field>, k: nat, default: T)
    requires f.name != CodeKey && f.name != MsgKey
    requires k <= |fields|
    ensures Deserialize(fields[..k] + [f] + fields[k..], default) == Deserialize(fields, default)
  {
    assert fields == fields[..k] + fields[k..];
    ValuesOfAppend(fields[..k] + [f], fields[k..], CodeKey);
    ValuesOfAppend(fields[..k] + [f], fields[k..], MsgKey);
    ValuesOfAppend(fields[..k], [f], CodeKey);
    ValuesOfAppend(fields[..k], [f], MsgKey);
    ValuesOfAppend(fields[..k], fields[k..], CodeKey);
    ValuesOfAppend(fields[..k], fields[k..], MsgKey);
  }

  /** Field order does not matter: `msg` before `code` is read the same way. */
  lemma DeserializeAnyOrder<T>(code: string, msg: string, default: T)
    ensures Deserialize([Field(MsgKey, msg), Field(CodeKey, code)], default)
         == Some(ErrorInfo(default, code, msg, []))
  {
    var fs := [Field(MsgKey, msg), Field(CodeKey, code)];
    assert fs[1..][1..] == [];
    assert ValuesOf(fs, CodeKey) == [code];
    assert ValuesOf(fs, MsgKey) == [msg];
  }

  /** Serialising then deserialising keeps `code` and the stored client
      message and loses exactly the skipped `app_code` and `server_msg`. */
  lemma SerializeRoundTrip<T>(e: ErrorInfo<T>, default: T)
    ensures Deserialize(Serialize(e), default) == Some(ErrorInfo(default, e.code, e.clientMsg, []))
  {
    var fs := Serialize(e);
    assert fs[1..][1..] == [];
    assert ValuesOf(fs, CodeKey) == [e.code];
    assert ValuesOf(fs, MsgKey) == [e.clientMsg];
  }

  /** The wire form carries nothing of `app_code` or `server_msg`: values that
      differ only there serialise identically, and only the names `code` and
      `msg` appear. */
  lemma SerializeSkips<T>(e: ErrorInfo<T>, appCode: T, serverMsg: string)
    ensures Serialize(e.(appCode := appCode, serverMsg := serverMsg)) == Serialize(e)
    ensures forall f :: f in Serialize(e) ==> f.name == CodeKey || f.name == MsgKey
  {
  }

  /** `msg` is the stored field, not the accessor: with an empty stored
      client message the wire carries the empty string even though
      `client_msg()` falls back to a non-empty server message. */
  lemma SerializedMsgIsStoredField<T>(e: ErrorInfo<T>)
    ensures Serialize(e)[1] == Field(MsgKey, e.clientMsg)
    ensures e.clientMsg == [] && e.serverMsg != [] ==> Serialize(e)[1].value != ClientMsg(e)
  {
  }
}
