/** The derivation step (error-code-derive/src/error_info.rs): the attribute
    metadata of an error enum, its validation, and the generated
    `ToErrorInfo` implementation with one match arm per variant. */
module Derive {
  import opened Wrappers
  import opened ErrorCode

  /** The shape of a variant's fields. */
  datatype FieldShape = Unit | Tuple(arity: nat) | Named(count: nat)

  /** One variant as written, with the keys of its `#[error_info(...)]`
      attribute; `None` is a key that is not given. */
  datatype VariantInput = VariantInput(ident: string, fields: FieldShape, code: Option<string>,
                                       appCode: Option<string>, clientMsg: Option<string>)

  /** The body of the annotated type.  Only enums are accepted by the
      derivation; a struct gets past attribute parsing and is refused after. */
  datatype Body = EnumBody(variants: seq<VariantInput>) | StructBody

  /** The annotated type: its name, its type-level `app_type` and `prefix`
      keys, and its body. */
  datatype DeriveInput = DeriveInput(ident: string, appType: Option<string>, prefix: Option<string>, body: Body)

  /** `EnumVariants`: a variant's metadata once parsed. */
  datatype EnumVariant = EnumVariant(ident: string, fields: FieldShape, code: string, appCode: string, clientMsg: string)

  datatype Data = Enum(variants: seq<EnumVariant>) | Struct

  /** `ErrorData`: the type-level metadata once parsed. */
  datatype ErrorData = ErrorData(ident: string, data: Data, appType: string, prefix: string)

  const CannotParse: string := "Can not parse input"
  const OnlyEnum: string := "Only enum is supported"

  /** Every variant gives the required `code` key. */
  predicate HasCodes(vs: seq<VariantInput>) {
    forall i :: 0 <= i < |vs| ==> vs[i].code.Some?
  }

  /** Attribute parsing succeeds: `prefix` and `app_type` are given and, for
      an enum, every variant gives `code`. */
  predicate Parsable(input: DeriveInput) {
    && input.prefix.Some?
    && input.appType.Some?
    && (input.body.EnumBody? ==> HasCodes(input.body.variants))
  }

  /** The derivation produces an implementation. */
  predicate Accepted(input: DeriveInput) {
    Parsable(input) && input.body.EnumBody?
  }

  /** `e` is the parsed form of `v`: the identifier, fields and `code` are
      kept, and an absent `app_code` or `client_msg` becomes "". */
  predicate ParsedFrom(e: EnumVariant, v: VariantInput) {
    && v.code == Some(e.code)
    && e.ident == v.ident
    && e.fields == v.fields
    && e.appCode == OrEmpty(v.appCode)
    && e.clientMsg == OrEmpty(v.clientMsg)
  }

  function FromVariant(v: VariantInput): Option<EnumVariant> {
    match v.code
    case None => None
    case Some(code) => Some(EnumVariant(v.ident, v.fields, code, OrEmpty(v.appCode), OrEmpty(v.clientMsg)))
  }

  /** Variant parsing: fails when any variant lacks `code`, and otherwise
      parses every variant, in declaration order. */
  function FromVariants(vs: seq<VariantInput>): (r: Option<seq<EnumVariant>>)
    ensures r.Some? <==> HasCodes(vs)
    ensures r.Some? ==> |r.value| == |vs| && forall i :: 0 <= i < |vs| ==> ParsedFrom(r.value[i], vs[i])
    decreases |vs|
  {
    if |vs| == 0 then Some([])
    else
      match FromVariant(vs[0])
      case None => None
      case Some(e) =>
        match FromVariants(vs[1..])
        case None => None
        case Some(es) => Some([e] + es)
  }

  /** `ErrorData::from_derive_input`: the type-level keys are required and an
      enum's variants are parsed. */
  function FromDeriveInput(input: DeriveInput): (r: Option<ErrorData>)
    ensures r.Some? <==> Parsable(input)
    ensures r.Some? ==> r.value.ident == input.ident
    ensures r.Some? ==> Some(r.value.prefix) == input.prefix && Some(r.value.appType) == input.appType
    ensures r.Some? ==> (r.value.data.Struct? <==> input.body.StructBody?)
    ensures r.Some? && r.value.data.Enum? ==>
      |r.value.data.variants| == |input.body.variants|
      && forall i :: 0 <= i < |input.body.variants| ==> ParsedFrom(r.value.data.variants[i], input.body.variants[i])
  {
    if input.prefix.None? || input.appType.None? then None
    else
      match input.body
      case StructBody => Some(ErrorData(input.ident, Struct, input.appType.value, input.prefix.value))
      case EnumBody(vs) =>
        match FromVariants(vs)
        case None => None
        case Some(es) => Some(ErrorData(input.ident, Enum(es), input.appType.value, input.prefix.value))
  }

  /** One generated arm `Name::Ident(_) => ErrorInfo::try_new(app_code, code,
      client_msg, self)`, with `code` already the full code. */
  datatype Arm = Arm(enumName: string, variant: string, appCode: string, code: string, clientMsg: string)

  /** The arm generated for `v` in enum `name` under `prefix`. */
  predicate ArmFor(arm: Arm, name: string, prefix: string, v: EnumVariant) {
    && arm.enumName == name
    && arm.variant == v.ident
    && arm.code == prefix + v.code
    && arm.appCode == v.appCode
    && arm.clientMsg == v.clientMsg
  }

  function MakeArm(name: string, prefix: string, v: EnumVariant): Arm {
    Arm(name, v.ident, v.appCode, prefix + v.code, v.clientMsg)
  }

  /** The arms, one per variant and in declaration order. */
  function Arms(name: string, prefix: string, vs: seq<EnumVariant>): (arms: seq<Arm>)
    ensures |arms| == |vs|
    ensures forall i :: 0 <= i < |vs| ==> ArmFor(arms[i], name, prefix, vs[i])
    decreases |vs|
  {
    if |vs| == 0 then [] else [MakeArm(name, prefix, vs[0])] + Arms(name, prefix, vs[1..])
  }

  /** The `(_)` of every generated pattern matches a tuple variant with
      exactly one field and no other shape, so the generated `match` only
      type-checks when every variant has that shape. */
  predicate PatternFits(shape: FieldShape) {
    shape == Tuple(1)
  }

  predicate AllPatternsFit(vs: seq<VariantInput>) {
    forall i :: 0 <= i < |vs| ==> PatternFits(vs[i].fields)
  }

  /** The generated `impl ToErrorInfo for Name`: the type it is for, its
      associated type `T`, and the arms of `to_error_info`'s `match`. */
  datatype ToErrorInfoImpl = ToErrorInfoImpl(selfType: string, assocType: string, arms: seq<Arm>)

  /** The arm generated for a variant as written. */
  predicate ArmFromInput(arm: Arm, name: string, prefix: string, v: VariantInput) {
    && arm.enumName == name
    && arm.variant == v.ident
    && v.code.Some? && arm.code == prefix + v.code.value
    && arm.appCode == OrEmpty(v.appCode)
    && arm.clientMsg == OrEmpty(v.clientMsg)
  }

  /** `process_error_info`.  Attribute parsing failures report "Can not parse
      input"; a parsed non-enum reports "Only enum is supported" (both are
      panics at compile time in the source).  Otherwise the implementation
      has `T` set to `app_type` and one arm per variant, in order, whose code
      is `prefix` followed by the variant's code. */
  function ProcessErrorInfo(input: DeriveInput): (r: Result<ToErrorInfoImpl, string>)
    ensures r.Ok? <==> Accepted(input)
    ensures r.Err? ==> r.error == (if Parsable(input) then OnlyEnum else CannotParse)
    ensures r.Ok? ==> r.value.selfType == input.ident && Some(r.value.assocType) == input.appType
    ensures r.Ok? ==>
      |r.value.arms| == |input.body.variants|
      && forall i :: 0 <= i < |input.body.variants| ==>
           ArmFromInput(r.value.arms[i], input.ident, input.prefix.value, input.body.variants[i])
  {
    match FromDeriveInput(input)
    case None => Err(CannotParse)
    case Some(ErrorData(name, data, appType, prefix)) =>
      match data
      case Struct => Err(OnlyEnum)
      case Enum(vs) => Ok(ToErrorInfoImpl(name, appType, Arms(name, prefix, vs)))
  }

  /** A failure value at run time: the position of its variant in
      declaration order and the text its `Display` produces. */
  datatype Instance = Instance(variant: nat, display: string)

  /** The generated `to_error_info`: the instance's arm calls `try_new` with
      the arm's application code, full code and client message, and the
      instance itself as the source of the server message. */
  function ToErrorInfo<T>(impl: ToErrorInfoImpl, parse: string -> Option<T>, inst: Instance)
    : (r: Result<ErrorInfo<T>, ParseFailure>)
    requires inst.variant < |impl.arms|
    ensures r.Ok? <==> parse(impl.arms[inst.variant].appCode).Some?
    ensures r.Err? ==> r.error == ParseFailure(impl.arms[inst.variant].appCode)
    ensures r.Ok? ==>
      && Some(r.value.appCode) == parse(impl.arms[inst.variant].appCode)
      && r.value.code == impl.arms[inst.variant].code
      && r.value.clientMsg == impl.arms[inst.variant].clientMsg
      && r.value.serverMsg == inst.display
  {
    var arm := impl.arms[inst.variant];
    TryNew(parse, arm.appCode, arm.code, arm.clientMsg, inst.display)
  }

  /** From declaration to runtime value: for an accepted taxonomy, the value
      for a variant's instance has the full code `prefix ++ code`, the
      variant's client message (default ""), the instance's display text as
      server message, and `client_msg()` falls back to that display text
      exactly when the variant declares no client message (or the same text). */
  lemma DeriveThenDispatch<T>(input: DeriveInput, parse: string -> Option<T>, i: nat, display: string)
    requires ProcessErrorInfo(input).Ok?
    requires i < |input.body.variants|
    ensures var v := input.body.variants[i];
            var r := ToErrorInfo(ProcessErrorInfo(input).value, parse, Instance(i, display));
            && (r.Ok? <==> parse(OrEmpty(v.appCode)).Some?)
            && (r.Ok? ==> r.value.code == input.prefix.value + v.code.value)
            && (r.Ok? ==> r.value.clientMsg == OrEmpty(v.clientMsg) && r.value.serverMsg == display)
            && (r.Ok? ==> (ClientMsg(r.value) == display <==> OrEmpty(v.clientMsg) in {[], display}))
  {
  }

  /** Prepending a fixed prefix is injective. */
  lemma PrefixInjective(prefix: string, a: string, b: string)
    ensures prefix + a == prefix + b <==> a == b
  {
    if prefix + a == prefix + b {
      assert a == (prefix + a)[|prefix|..];
      assert b == (prefix + b)[|prefix|..];
    }
  }

  /** Two arms of an accepted taxonomy share a full code exactly when their
      variants declare the same code: distinct codes give distinct full
      codes, and nothing rejects a repeated code. */
  lemma FullCodesCollideIff(input: DeriveInput, i: nat, j: nat)
    requires ProcessErrorInfo(input).Ok?
    requires i < |input.body.variants| && j < |input.body.variants|
    ensures var arms := ProcessErrorInfo(input).value.arms;
            arms[i].code == arms[j].code <==> input.body.variants[i].code == input.body.variants[j].code
  {
    var arms := ProcessErrorInfo(input).value.arms;
    var vs := input.body.variants;
    assert ArmFromInput(arms[i], input.ident, input.prefix.value, vs[i]);
    assert ArmFromInput(arms[j], input.ident, input.prefix.value, vs[j]);
    PrefixInjective(input.prefix.value, vs[i].code.value, vs[j].code.value);
  }

  /** All full codes of an implementation are distinct. */
  predicate CodesUnique(impl: ToErrorInfoImpl) {
    forall i, j :: 0 <= i < j < |impl.arms| ==> impl.arms[i].code != impl.arms[j].code
  }
}
