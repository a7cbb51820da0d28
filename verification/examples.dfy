/** Concrete taxonomies: the one in the derivation's own unit test and the
    one in the web example, with decimal `u16` parsing for their application
    codes. */
module Examples {
  import opened Wrappers
  import opened Decimal
  import opened ErrorCode
  import opened Derive

  /** `MyError`, prefix "01": `InvalidCommand` (IC, 400), `InvalidArgument`
      (IA, 400, "friendly msg") and `RespError` (RE, 500), each a one-field
      tuple variant. */
  function MyErrorInput(): DeriveInput {
    DeriveInput("MyError", Some("StatusCode"), Some("01"), EnumBody([
      VariantInput("InvalidCommand", Tuple(1), Some("IC"), Some("400"), None),
      VariantInput("InvalidArgument", Tuple(1), Some("IA"), Some("400"), Some("friendly msg")),
      VariantInput("RespError", Tuple(1), Some("RE"), Some("500"), None)]))
  }

  /** `AppError`, prefix "0A", application type `u16`; its last variant
      `Unknown` is a unit variant. */
  function AppErrorInput(): DeriveInput {
    DeriveInput("AppError", Some("u16"), Some("0A"), EnumBody([
      VariantInput("InvalidParam", Tuple(1), Some("IP"), Some("400"), None),
      VariantInput("NotFound", Tuple(1), Some("NF"), Some("404"), None),
      VariantInput("ServerError", Tuple(1), Some("ISE"), Some("500"),
                   Some("we had a server problem, please try again later")),
      VariantInput("Unknown", Unit, Some("UE"), Some("500"), None)]))
  }

  /** The derivation of `MyError` yields, in order, arms with full codes
      "01IC", "01IA" and "01RE"; only `IA` carries a client message. */
  lemma MyErrorArms()
    ensures ProcessErrorInfo(MyErrorInput()) == Ok(ToErrorInfoImpl("MyError", "StatusCode", [
              Arm("MyError", "InvalidCommand", "400", "01IC", ""),
              Arm("MyError", "InvalidArgument", "400", "01IA", "friendly msg"),
              Arm("MyError", "RespError", "500", "01RE", "")]))
  {
    var input := MyErrorInput();
    var r := ProcessErrorInfo(input);
    assert Accepted(input) by {
      assert HasCodes(input.body.variants);
    }
    var arms := r.value.arms;
    assert ArmFromInput(arms[0], "MyError", "01", input.body.variants[0]);
    assert ArmFromInput(arms[1], "MyError", "01", input.body.variants[1]);
    assert ArmFromInput(arms[2], "MyError", "01", input.body.variants[2]);
    assert "01" + "IC" == "01IC" && "01" + "IA" == "01IA" && "01" + "RE" == "01RE";
    assert arms == [arms[0], arms[1], arms[2]];
  }

  /** `InvalidCommand("foo")`, displayed "Invalid command: foo", gives code
      "01IC", application code 400 and that display text as `client_msg()`. */
  lemma InvalidCommandScenario()
    ensures var r := ToErrorInfo(ProcessErrorInfo(MyErrorInput()).value, ParseU16,
                                 Instance(0, "Invalid command: foo"));
            && r.Ok?
            && r.value.code == "01IC"
            && r.value.appCode == 400
            && ClientMsg(r.value) == "Invalid command: foo"
  {
    MyErrorArms();
    ParseShow(400);
    assert Show(400) == "400";
  }

  /** `InvalidArgument` shows "friendly msg" to clients whatever its display text. */
  lemma InvalidArgumentScenario(display: string)
    ensures var r := ToErrorInfo(ProcessErrorInfo(MyErrorInput()).value, ParseU16, Instance(1, display));
            r.Ok? && r.value.code == "01IA" && ClientMsg(r.value) == "friendly msg"
  {
    MyErrorArms();
    ParseShow(400);
    assert Show(400) == "400";
  }

  /** An application code that is not a number makes dispatch fail rather
      than default. */
  lemma UnparsableAppCode(display: string)
    ensures var input := DeriveInput("MyError", Some("u16"), Some("01"), EnumBody([
                           VariantInput("InvalidCommand", Tuple(1), Some("IC"), Some("not-a-number"), None)]));
            var r := ToErrorInfo(ProcessErrorInfo(input).value, ParseU16, Instance(0, display));
            r == Err(ParseFailure("not-a-number"))
  {
  }

  /** A variant without `app_code` gets "", which no `u16` parse accepts, so
      its dispatch always fails. */
  lemma MissingAppCodeFails(display: string)
    ensures var input := DeriveInput("E", Some("u16"), Some("01"), EnumBody([
                           VariantInput("V", Tuple(1), Some("X"), None, None)]));
            ProcessErrorInfo(input).Ok?
            && ToErrorInfo(ProcessErrorInfo(input).value, ParseU16, Instance(0, display)) == Err(ParseFailure(""))
  {
  }

  /** The web example's derivation: codes "0AIP", "0ANF", "0AISE", "0AUE". */
  lemma AppErrorArms()
    ensures var r := ProcessErrorInfo(AppErrorInput());
            && r.Ok?
            && r.value.assocType == "u16"
            && |r.value.arms| == 4
            && r.value.arms[0].code == "0AIP"
            && r.value.arms[1].code == "0ANF"
            && r.value.arms[2].code == "0AISE"
            && r.value.arms[3].code == "0AUE"
  {
  }

  /** The unit variant `Unknown` does not fit the generated `(_)` pattern, so
      the generated `match` for the web example does not type-check. */
  lemma AppErrorPatternMismatch()
    ensures ProcessErrorInfo(AppErrorInput()).Ok?
    ensures !AllPatternsFit(AppErrorInput().body.variants)
  {
  }

  /** `ServerError` sends the fixed client message and application code 500,
      while its display text ("Internal server error: " followed by its
      payload, a captured backtrace in the example) stays in `server_msg` and
      out of both the client rendering and the wire form. */
  lemma ServerErrorScenario(display: string)
    ensures var r := ToErrorInfo(ProcessErrorInfo(AppErrorInput()).value, ParseU16, Instance(2, display));
            && r.Ok?
            && r.value.appCode == 500
            && r.value.serverMsg == display
            && ClientMsg(r.value) == "we had a server problem, please try again later"
            && Serialize(r.value) == [Field("code", "0AISE"), Field("msg", "we had a server problem, please try again later")]
  {
    AppErrorArms();
    var input := AppErrorInput();
    var arms := ProcessErrorInfo(input).value.arms;
    assert ArmFromInput(arms[2], "AppError", "0A", input.body.variants[2]);
    ParseShow(500);
    assert Show(500) == "500";
  }

  /** Duplicate codes are accepted: both arms get the same full code. */
  lemma DuplicateCodesAccepted()
    ensures var input := DeriveInput("E", Some("u16"), Some("01"), EnumBody([
                           VariantInput("A", Tuple(1), Some("X"), Some("400"), None),
                           VariantInput("B", Tuple(1), Some("X"), Some("500"), None)]));
            ProcessErrorInfo(input).Ok? && !CodesUnique(ProcessErrorInfo(input).value)
  {
  }

  /** A variant without `code`, or a missing `prefix`, fails parsing; a
      struct with both type-level keys is refused as not an enum. */
  lemma RejectedInputs()
    ensures ProcessErrorInfo(DeriveInput("E", Some("u16"), Some("01"), EnumBody([
              VariantInput("A", Tuple(1), None, Some("400"), None)]))) == Err(CannotParse)
    ensures ProcessErrorInfo(DeriveInput("E", Some("u16"), None, EnumBody([]))) == Err(CannotParse)
    ensures ProcessErrorInfo(DeriveInput("S", Some("u16"), Some("01"), StructBody)) == Err(OnlyEnum)
  {
  }
}
