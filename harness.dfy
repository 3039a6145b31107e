/**
  The request pipeline of the harness's `main`: after the flags are parsed,
  the primitive and algorithm are validated against the catalog in a fixed
  order, the nonce, key and payload are decoded, and the request is routed
  by exact match on the primitive string to one of seven handlers.

  Flag parsing, standard input and base64 decoding are parameters: an
  `Invocation` holds the four flag values and the positional arguments,
  `stdin` is what reading standard input to its end gives, and `decode`
  stands for Go's `base64.StdEncoding.DecodeString`.
*/
module Harness {
  import opened Wrappers
  import opened Catalog
  import opened Input

  newtype byte = b: int | 0 <= b < 256
  type Bytes = seq<byte>

  /** A base64 decoder: the decoded bytes, or the text of the decoding error. */
  type Decoder = string -> Result<Bytes>

  type Primitive = string

  const MAC: Primitive := "MAC"
  const AEAD: Primitive := "AEAD"
  const DAEAD: Primitive := "DAEAD"
  const HPKE: Primitive := "HPKE"
  const HKDF: Primitive := "HKDF"
  const Signature: Primitive := "Signature"
  const Agreement: Primitive := "Agreement"

  /** The seven primitive handlers; the cryptography they perform is outside this model. */
  datatype Handler =
    | HandleMAC | HandleAEAD | HandleDAEAD | HandleHPKE | HandleHKDF | HandleSignature | HandleAgreement

  /** The primitive string whose `case` selects the handler. */
  function PrimitiveOf(h: Handler): Primitive
  {
    match h
    case HandleMAC => MAC
    case HandleAEAD => AEAD
    case HandleDAEAD => DAEAD
    case HandleHPKE => HPKE
    case HandleHKDF => HKDF
    case HandleSignature => Signature
    case HandleAgreement => Agreement
  }

  /** The `switch` on the primitive string: exact match, no default handler. */
  function Route(pr: Primitive): Option<Handler>
  {
    if pr == MAC then Some(HandleMAC)
    else if pr == AEAD then Some(HandleAEAD)
    else if pr == DAEAD then Some(HandleDAEAD)
    else if pr == HPKE then Some(HandleHPKE)
    else if pr == HKDF then Some(HandleHKDF)
    else if pr == Signature then Some(HandleSignature)
    else if pr == Agreement then Some(HandleAgreement)
    else None
  }

  /** Each primitive string routes to exactly one handler, and only the seven strings route at all. */
  lemma RouteExact(pr: Primitive, h: Handler)
    ensures Route(pr) == Some(h) <==> pr == PrimitiveOf(h)
    ensures Route(pr).None? <==> pr !in {MAC, AEAD, DAEAD, HPKE, HKDF, Signature, Agreement}
  {
  }

  /** Only the AEAD and DAEAD handlers are passed the nonce. */
  predicate ReceivesNonce(h: Handler)
  {
    h == HandleAEAD || h == HandleDAEAD
  }

  /** The four flag values and the positional arguments left after flag parsing. */
  datatype Invocation = Invocation(
    primitive: Primitive,
    algorithm: Algorithm,
    nonce: string,
    key: string,
    positional: seq<string>)

  /** How one run of the harness ends. */
  datatype Outcome =
    | Panic(reason: string)                    // a Go runtime panic
    | Fail(message: string)                    // `log.Fatal`: the message, then exit status 1
    | Skipped(notice: string)                  // the ignored-algorithm notice, then exit status 0
    | Dispatch(handler: Handler, algorithm: Algorithm, nonce: Option<Bytes>, key: Bytes, payload: Bytes)

  /** The process exit status, when this core decides it (a handler decides its own). */
  function ExitStatus(o: Outcome): (status: Option<int>)
    ensures status == Some(0) <==> o.Skipped?
    ensures status.None? <==> o.Dispatch?
  {
    match o
    case Panic(_) => Some(2)
    case Fail(_) => Some(1)
    case Skipped(_) => Some(0)
    case Dispatch(_, _, _, _, _) => None
  }

  /** What the runtime reports for `flag.Args()[1:]` when there are no positional arguments. */
  const SliceOutOfRange: string := "runtime error: slice bounds out of range [1:0]"

  /**
    The payload source: standard input, verbatim, when the joined arguments
    trim to nothing; the decoded joined arguments otherwise.
  */
  function Payload(sp: string, decode: Decoder, stdin: Result<Bytes>): Result<Bytes>
  {
    if TrimSpace(sp) == "" then stdin else decode(sp)
  }

  /** Exactly one source wins: standard input for a blank argument string, the decoder otherwise. */
  lemma PayloadSource(sp: string, decode: Decoder, stdin: Result<Bytes>)
    ensures IsBlank(sp) ==> Payload(sp, decode, stdin) == stdin
    ensures !IsBlank(sp) ==> Payload(sp, decode, stdin) == decode(sp)
  {
  }

  /** The primitive and algorithm checks all pass: the request goes on to decoding. */
  predicate Validated(inv: Invocation)
  {
    inv.primitive != "" && inv.algorithm != "" && Known(inv.algorithm) && !Ignored(inv.algorithm)
  }

  /** The joined positional arguments after the first. */
  function PayloadText(inv: Invocation): string
    requires |inv.positional| > 0
  {
    Spaced(inv.positional[1..])
  }

  /**
    The end of the run once everything is decoded: the request goes to the
    handler its primitive selects, with the nonce only for AEAD and DAEAD.
  */
  function Routed(pr: Primitive, a: Algorithm, nb: Bytes, kb: Bytes, pb: Bytes): (o: Outcome)
    ensures o.Dispatch? <==> Route(pr).Some?
    ensures o.Dispatch? ==>
      && pr == PrimitiveOf(o.handler) && o.algorithm == a && o.key == kb && o.payload == pb
      && o.nonce == (if ReceivesNonce(o.handler) then Some(nb) else None)
    ensures o.Fail? <==> Route(pr).None?
  {
    match Route(pr)
    case None => Fail("Unknown primitive: " + pr)
    case Some(h) =>
      RouteExact(pr, h);
      Dispatch(h, a, if ReceivesNonce(h) then Some(nb) else None, kb, pb)
  }

  /** The `switch` statement that calls the handler of the primitive. */
  method Switch(pr: Primitive, a: Algorithm, nb: Bytes, kb: Bytes, pb: Bytes) returns (o: Outcome)
    ensures o == Routed(pr, a, nb, kb, pb)
  {
    if pr == MAC {
      o := Dispatch(HandleMAC, a, None, kb, pb);
    } else if pr == AEAD {
      o := Dispatch(HandleAEAD, a, Some(nb), kb, pb);
    } else if pr == DAEAD {
      o := Dispatch(HandleDAEAD, a, Some(nb), kb, pb);
    } else if pr == HPKE {
      o := Dispatch(HandleHPKE, a, None, kb, pb);
    } else if pr == HKDF {
      o := Dispatch(HandleHKDF, a, None, kb, pb);
    } else if pr == Signature {
      o := Dispatch(HandleSignature, a, None, kb, pb);
    } else if pr == Agreement {
      o := Dispatch(HandleAgreement, a, None, kb, pb);
    } else {
      o := Fail("Unknown primitive: " + pr);
    }
  }

  /** One run of `main` after flag parsing, as a value. */
  function Run(inv: Invocation, decode: Decoder, stdin: Result<Bytes>): (o: Outcome)
    // A request reaches a handler only when every check has passed.
    ensures o.Dispatch? ==>
      && |inv.positional| > 0
      && Validated(inv)
      && o.algorithm == inv.algorithm
      && inv.primitive == PrimitiveOf(o.handler)
      && decode(inv.nonce).Ok?
      && (o.nonce.Some? <==> ReceivesNonce(o.handler))
      && (o.nonce.Some? ==> decode(inv.nonce) == Ok(o.nonce.value))
      && decode(inv.key) == Ok(o.key)
      && Payload(PayloadText(inv), decode, stdin) == Ok(o.payload)
  {
    if |inv.positional| == 0 then Panic(SliceOutOfRange)
    else if inv.primitive == "" then Fail("missing primitive")
    else if inv.algorithm == "" then Fail("missing algorithm")
    else if !Known(inv.algorithm) then Fail("unknown algorithm: " + inv.algorithm)
    else if Ignored(inv.algorithm) then Skipped("ignored algorithm: " + inv.algorithm)
    else Decoded(inv, decode(inv.nonce), decode(inv.key), Payload(PayloadText(inv), decode, stdin))
  }

  /**
    The rest of the run once the flags are validated, from the results of
    decoding the nonce, the key and the payload: the first failure in that
    order is reported, and otherwise the request is routed.
  */
  function Decoded(inv: Invocation, nonce: Result<Bytes>, key: Result<Bytes>, payload: Result<Bytes>): Outcome
  {
    match nonce
    case Err(e) => Fail("invalid nonce: " + e)
    case Ok(nb) =>
      match key
      case Err(e) => Fail("invalid key: " + e)
      case Ok(kb) =>
        match payload
        case Err(e) => Fail("invalid input: " + e)
        case Ok(pb) => Routed(inv.primitive, inv.algorithm, nb, kb, pb)
  }

  /** `main` step by step, from the positional slice to the `switch`. */
  method Execute(inv: Invocation, decode: Decoder, stdin: Result<Bytes>) returns (o: Outcome)
    ensures o == Run(inv, decode, stdin)
  {
    if |inv.positional| == 0 {
      return Panic(SliceOutOfRange);
    }
    var sp := JoinArguments(inv.positional[1..]);

    if inv.primitive == "" {
      return Fail("missing primitive");
    }
    if inv.algorithm == "" {
      return Fail("missing algorithm");
    }
    var known := IsKnown(inv.algorithm);
    if !known {
      return Fail("unknown algorithm: " + inv.algorithm);
    }
    var ignored := IsIgnored(inv.algorithm);
    if ignored {
      return Skipped("ignored algorithm: " + inv.algorithm);
    }

    var nonce := decode(inv.nonce);
    if nonce.Err? {
      return Fail("invalid nonce: " + nonce.error);
    }
    var key := decode(inv.key);
    if key.Err? {
      return Fail("invalid key: " + key.error);
    }
    var nb, kb := nonce.value, key.value;

    var pb: Bytes;
    if TrimSpace(sp) == "" {
      if stdin.Err? {
        return Fail("invalid input: " + stdin.error);
      }
      pb := stdin.value;
    } else {
      var payload := decode(sp);
      if payload.Err? {
        return Fail("invalid input: " + payload.error);
      }
      pb := payload.value;
    }

    o := Switch(inv.primitive, inv.algorithm, nb, kb, pb);
  }

  /** Without positional arguments the slice `flag.Args()[1:]` panics before any check runs. */
  lemma NoPositionalArgumentsPanics(inv: Invocation, decode: Decoder, stdin: Result<Bytes>)
    requires |inv.positional| == 0
    ensures Run(inv, decode, stdin) == Panic(SliceOutOfRange)
    ensures ExitStatus(Run(inv, decode, stdin)) == Some(2)
  {
  }

  /**
    The checks on the flags come in a fixed order: a missing primitive is reported
    whatever the algorithm, then a missing algorithm, then an unknown one.
  */
  lemma CheckOrder(inv: Invocation, decode: Decoder, stdin: Result<Bytes>)
    requires |inv.positional| > 0
    ensures inv.primitive == "" ==> Run(inv, decode, stdin) == Fail("missing primitive")
    ensures inv.primitive != "" && inv.algorithm == "" ==>
      Run(inv, decode, stdin) == Fail("missing algorithm")
    ensures inv.primitive != "" && inv.algorithm != "" && !Known(inv.algorithm) ==>
      Run(inv, decode, stdin) == Fail("unknown algorithm: " + inv.algorithm)
  {
  }

  /**
    Until the flags pass validation, neither the decoder nor standard input has
    any say in the outcome, and nothing is dispatched.
  */
  lemma ValidationPrecedesDecoding(inv: Invocation, decode: Decoder, decode': Decoder,
                                   stdin: Result<Bytes>, stdin': Result<Bytes>)
    requires !Validated(inv)
    ensures Run(inv, decode, stdin) == Run(inv, decode', stdin')
    ensures !Run(inv, decode, stdin).Dispatch?
  {
  }

  /**
    An ignored algorithm with a primitive given ends in the success notice: it
    is known, so the unknown-algorithm check lets it through, and nothing is
    decoded, read or dispatched.
  */
  lemma IgnoredAlgorithmSkips(inv: Invocation, decode: Decoder, stdin: Result<Bytes>)
    requires |inv.positional| > 0 && inv.primitive != "" && Ignored(inv.algorithm)
    ensures Run(inv, decode, stdin) == Skipped("ignored algorithm: " + inv.algorithm)
    ensures ExitStatus(Run(inv, decode, stdin)) == Some(0)
  {
    IgnoredImpliesKnown(inv.algorithm);
  }

  /** Once the flags are validated, the outcome depends only on the three decoding results. */
  lemma RunAfterValidation(inv: Invocation, decode: Decoder, stdin: Result<Bytes>)
    requires |inv.positional| > 0 && Validated(inv)
    ensures Run(inv, decode, stdin) ==
      Decoded(inv, decode(inv.nonce), decode(inv.key), Payload(PayloadText(inv), decode, stdin))
  {
  }

  /**
    The three decodings run in the order nonce, key, payload, whatever the
    primitive (the nonce is decoded even when the handler never receives it),
    and the first failure names its field.
  */
  lemma DecodingOrder(inv: Invocation, decode: Decoder, stdin: Result<Bytes>)
    requires |inv.positional| > 0 && Validated(inv)
    ensures decode(inv.nonce).Err? ==>
      Run(inv, decode, stdin) == Fail("invalid nonce: " + decode(inv.nonce).error)
    ensures decode(inv.nonce).Ok? && decode(inv.key).Err? ==>
      Run(inv, decode, stdin) == Fail("invalid key: " + decode(inv.key).error)
    ensures decode(inv.nonce).Ok? && decode(inv.key).Ok?
            && Payload(PayloadText(inv), decode, stdin).Err? ==>
      Run(inv, decode, stdin) == Fail("invalid input: " + Payload(PayloadText(inv), decode, stdin).error)
  {
  }

  /**
    A primitive outside the seven passes validation and is rejected only at the
    `switch`, after all three decodings have succeeded.
  */
  lemma UnknownPrimitiveRejectedAfterDecoding(inv: Invocation, decode: Decoder, stdin: Result<Bytes>)
    requires |inv.positional| > 0 && Validated(inv) && Route(inv.primitive).None?
    requires decode(inv.nonce).Ok? && decode(inv.key).Ok? && Payload(PayloadText(inv), decode, stdin).Ok?
    ensures Run(inv, decode, stdin) == Fail("Unknown primitive: " + inv.primitive)
  {
  }

  /** The arguments after the first are all blank. */
  predicate NoPositionalPayload(inv: Invocation)
  {
    forall i :: 1 <= i < |inv.positional| ==> IsBlank(inv.positional[i])
  }

  lemma PayloadTextBlank(inv: Invocation)
    requires |inv.positional| > 0
    ensures IsBlank(PayloadText(inv)) <==> NoPositionalPayload(inv)
  {
    var rest := inv.positional[1..];
    SpacedBlankIffArgumentsBlank(rest);
    if !NoPositionalPayload(inv) {
      var i :| 1 <= i < |inv.positional| && !IsBlank(inv.positional[i]);
      assert rest[i - 1] == inv.positional[i];
    }
  }

  /**
    With only blank arguments after the first, the payload is standard input
    byte for byte, undecoded, and a read error is reported as invalid input.
  */
  lemma StdinPayloadVerbatim(inv: Invocation, decode: Decoder, stdin: Result<Bytes>, h: Handler)
    requires |inv.positional| > 0 && Validated(inv) && NoPositionalPayload(inv)
    requires inv.primitive == PrimitiveOf(h)
    requires decode(inv.nonce).Ok? && decode(inv.key).Ok?
    ensures stdin.Err? ==> Run(inv, decode, stdin) == Fail("invalid input: " + stdin.error)
    ensures stdin.Ok? ==>
      Run(inv, decode, stdin) ==
        Dispatch(h, inv.algorithm, if ReceivesNonce(h) then Some(decode(inv.nonce).value) else None,
                 decode(inv.key).value, stdin.value)
  {
    PayloadTextBlank(inv);
    PayloadSource(PayloadText(inv), decode, stdin);
    RouteExact(inv.primitive, h);
  }

  /**
    A non-blank argument after the first makes the decoded argument string the
    payload source: standard input is never consulted.
  */
  lemma PositionalPayloadIgnoresStdin(inv: Invocation, decode: Decoder,
                                      stdin: Result<Bytes>, stdin': Result<Bytes>)
    requires |inv.positional| > 0 && !NoPositionalPayload(inv)
    ensures Payload(PayloadText(inv), decode, stdin) == decode(PayloadText(inv))
    ensures Run(inv, decode, stdin) == Run(inv, decode, stdin')
  {
    PayloadTextBlank(inv);
    PayloadSource(PayloadText(inv), decode, stdin);
    PayloadSource(PayloadText(inv), decode, stdin');
    if Validated(inv) {
      RunAfterValidation(inv, decode, stdin);
      RunAfterValidation(inv, decode, stdin');
    } else {
      ValidationPrecedesDecoding(inv, decode, decode, stdin, stdin');
    }
  }

  /** The characters `base64.StdEncoding` accepts: its alphabet, the padding `=`, and the skipped `\r` and `\n`. */
  predicate StdEncodingChar(c: char)
  {
    ('A' <= c <= 'Z') || ('a' <= c <= 'z') || ('0' <= c <= '9')
    || c == '+' || c == '/' || c == '=' || c == '\r' || c == '\n'
  }

  /** A decoder that, like Go's, rejects every input holding a character it does not accept. */
  ghost predicate RejectsForeignCharacters(decode: Decoder)
  {
    forall s: string, i :: 0 <= i < |s| && !StdEncodingChar(s[i]) ==> decode(s).Err?
  }

  /**
    The joined argument string always starts with a space, which the standard
    base64 decoder rejects: once the flags, nonce and key are fine, a
    non-blank positional payload always ends in "invalid input".
  */
  lemma PositionalPayloadRejected(inv: Invocation, decode: Decoder, stdin: Result<Bytes>)
    requires RejectsForeignCharacters(decode)
    requires |inv.positional| > 0 && Validated(inv) && !NoPositionalPayload(inv)
    requires decode(inv.nonce).Ok? && decode(inv.key).Ok?
    ensures decode(PayloadText(inv)).Err?
    ensures Run(inv, decode, stdin) == Fail("invalid input: " + decode(PayloadText(inv)).error)
  {
    assert |inv.positional[1..]| > 0;
    SpacedStartsWithSpace(inv.positional[1..]);
    assert !StdEncodingChar(PayloadText(inv)[0]);
    PositionalPayloadIgnoresStdin(inv, decode, stdin, stdin);
  }

  /**
    The algorithm's family is never checked against the primitive: any known,
    non-ignored algorithm is dispatched to the handler of whatever primitive
    was asked for.
  */
  lemma AnyKnownAlgorithmDispatches(inv: Invocation, decode: Decoder, stdin: Result<Bytes>, h: Handler)
    requires |inv.positional| > 0 && Validated(inv) && inv.primitive == PrimitiveOf(h)
    requires decode(inv.nonce).Ok? && decode(inv.key).Ok? && Payload(PayloadText(inv), decode, stdin).Ok?
    ensures Run(inv, decode, stdin) ==
      Dispatch(h, inv.algorithm, if ReceivesNonce(h) then Some(decode(inv.nonce).value) else None,
               decode(inv.key).value, Payload(PayloadText(inv), decode, stdin).value)
  {
    RunAfterValidation(inv, decode, stdin);
  }

  /** For one: an AEAD algorithm given with the Signature primitive reaches the signature handler. */
  lemma SignatureAcceptsAeadAlgorithm(nonce: string, key: string, mode: string,
                                      decode: Decoder, payload: Bytes)
    requires decode(nonce).Ok? && decode(key).Ok?
    ensures Run(Invocation(Signature, AES_128_GCM, nonce, key, [mode]), decode, Ok(payload)) ==
      Dispatch(HandleSignature, AES_128_GCM, None, decode(key).value, payload)
  {
    var inv := Invocation(Signature, AES_128_GCM, nonce, key, [mode]);
    SupportedConstantsKnown(AES_128_GCM);
    assert PayloadText(inv) == "";
    StdinPayloadVerbatim(inv, decode, Ok(payload), HandleSignature);
  }
}
