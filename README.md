# Request validation and dispatch of the navajo-compare harness

navajo-compare is a command-line front end for cross-implementation
interoperability tests of cryptographic primitives. One run takes a
primitive (`-primitive`), an algorithm identifier (`-algorithm`), a base64
nonce (`-nonce`) and key (`-key`), positional arguments and standard input.
It checks the request against a static algorithm catalog and hands it to
one of seven primitive handlers.

This project models that core of `main.go` in Dafny:

- `catalog.dfy` (module `Catalog`) holds the nine algorithm tables and
  `join`, with `Join` as the loop and `Concat` as its specification. It
  builds `allAlgorithms` and the two linear lookups `isKnown` and
  `isIgnored`, each written as a loop method (`Scan`, `IsKnown`, `IsIgnored`)
  and proved equal to a membership predicate (`Known`, `Ignored`).
- `input.dfy` (module `Input`) covers the text side of payload selection:
  - the loop `sp += " " + ap` (`JoinArguments`, specified by `Spaced`);
  - Go's `unicode.IsSpace`;
  - `strings.TrimSpace`.
- `harness.dfy` (module `Harness`) models the rest of `main`:
  - `Run` is the whole run as a function from an `Invocation` (the four flag
    strings and the positional arguments), a decoder and the standard-input
    bytes to an `Outcome`;
  - `Execute` is the same steps written as a method and proved equal to
    `Run`; its final `switch` is the method `Switch`, proved equal to the
    routing function `Routed`.

  An `Outcome` is one of:
  - `Panic`, a runtime panic;
  - `Fail(message)`, from `log.Fatal`;
  - `Skipped(notice)`, the ignored-algorithm success exit;
  - `Dispatch(handler, algorithm, nonce, key, payload)`.
- `wrappers.dfy` (module `Wrappers`) defines `Option` and a `Result` that
  carries Go's error text.

Base64 decoding (`base64.StdEncoding.DecodeString`) is a parameter
`decode: string -> Result<Bytes>`. Every property is stated for any decoder.
One property also needs the fact that the standard decoder rejects characters
outside its alphabet, so it takes that fact as a hypothesis,
`RejectsForeignCharacters`.

Two behaviours of `main` are easy to miss:

- `flag.Args()[1:]` is evaluated before any check. With no positional
  argument, the run panics before "missing primitive" can be reported
  (`NoPositionalArgumentsPanics`).
- Non-blank positional arguments look like an inline base64 payload, but the
  code decodes `sp`, and `sp` always begins with the separating space. The
  standard decoder rejects that space. So once the primitive, algorithm,
  nonce and key checks pass, a non-blank positional payload always ends in
  "invalid input" (`PositionalPayloadRejected`). Only the standard-input path
  can deliver a payload.

## Model

| member | source | states |
|---|---|---|
| Catalog.Concat | main.go:132-138 | the joined list is as long as all input lists together |
| Catalog.Join | main.go:132-138 | the append loop returns exactly the concatenation of its argument lists |
| Catalog.ConcatPlacement | main.go:132-138 | element j of list i sits at offset (length of lists before i) + j: the lists are concatenated in argument order |
| Catalog.ConcatMembership | main.go:132-138 | an identifier is in the joined list iff it is in one of the input lists |
| Catalog.Scan | main.go:152-168 | the early-return loop reports true iff the identifier occurs in the table |
| Catalog.IsKnown | main.go:152-159 | isKnown is true iff the identifier is in allAlgorithms |
| Catalog.IsIgnored | main.go:161-168 | isIgnored is true iff the identifier is in ignoredAlgorithms |
| Catalog.AllAlgorithmsLength | main.go:67-150 | allAlgorithms has the 36 entries of the nine tables, duplicates included |
| Catalog.KnownIffInSomeTable | main.go:140-159 | known iff the identifier occurs in at least one of the nine joined tables |
| Catalog.KnownIffInDistinctFamilies | main.go:71-159 | the duplicated SHA entries of the HMAC and HKDF tables and the empty agreement and HPKE tables do not change isKnown |
| Catalog.IgnoredImpliesKnown | main.go:140-168 | every ignored identifier is known |
| Catalog.IgnoredIsExactlyBlake3 | main.go:67-69 | BLAKE3 is known and ignored, and no other identifier is ignored |
| Catalog.SupportedConstantsKnown | main.go:28-122 | every MAC, AEAD, DAEAD and signature identifier is known and not ignored |
| Input.TrimSpaceEmptyIffBlank | main.go:212 | TrimSpace yields the empty string iff every character is Unicode white space |
| Input.JoinArguments | main.go:183-187 | the `sp +=` loop builds " " + a1 + " " + a2 ... over the arguments |
| Input.SpacedStartsWithSpace | main.go:185-187 | with at least one argument, the joined string starts with a space |
| Input.SpacedBlankIffArgumentsBlank | main.go:185-187 | the joined string is blank iff every argument is blank |
| Harness.RouteExact | main.go:224-241 | each of the seven primitive strings selects exactly one handler, and every other string selects none |
| Harness.Routed | main.go:224-241 | a handler is chosen iff the primitive is one of the seven; it gets the algorithm, key and payload unchanged and the nonce only for AEAD and DAEAD; any other primitive fails |
| Harness.Switch | main.go:224-241 | the switch statement produces exactly the routing Routed specifies |
| Harness.ExitStatus | main.go:189-202 | exit status 0 exactly for the ignored-algorithm skip; a dispatched run's status is the handler's |
| Harness.PayloadSource | main.go:211-222 | a blank argument string takes standard input verbatim; otherwise the decoded argument string is the payload |
| Harness.Run | main.go:183-241 | a handler is reached only after the primitive, algorithm, nonce, key and payload checks all pass; only AEAD and DAEAD get the nonce |
| Harness.Execute | main.go:183-241 | main's sequence of checks, decodings and switch yields the outcome Run specifies |
| Harness.NoPositionalArgumentsPanics | main.go:184 | without positional arguments the run panics before any check |
| Harness.CheckOrder | main.go:189-198 | missing primitive wins over everything, then missing algorithm, then unknown algorithm |
| Harness.ValidationPrecedesDecoding | main.go:189-203 | before validation passes, neither the decoder nor standard input affects the outcome, and nothing is dispatched |
| Harness.IgnoredAlgorithmSkips | main.go:196-202 | an ignored algorithm with a primitive ends in the success notice and exit status 0 |
| Harness.RunAfterValidation | main.go:203-241 | once the flags are validated, the outcome depends only on the nonce, key and payload decoding results |
| Harness.DecodingOrder | main.go:203-222 | nonce, then key, then payload are decoded for every primitive, and the first failure names its field |
| Harness.UnknownPrimitiveRejectedAfterDecoding | main.go:203-241 | an unrecognised primitive fails at the switch only after all three decodings succeed |
| Harness.PayloadTextBlank | main.go:184-187 | the joined arguments after the first are blank iff each of those arguments is blank |
| Harness.StdinPayloadVerbatim | main.go:211-216 | with no non-blank argument after the first, the handler gets the standard-input bytes unchanged, and a read error is invalid input |
| Harness.PositionalPayloadIgnoresStdin | main.go:211-222 | with a non-blank argument after the first, standard input has no effect on the outcome |
| Harness.PositionalPayloadRejected | main.go:183-222 | with a decoder that rejects non-alphabet characters, once the primitive, algorithm, nonce and key checks pass, a non-blank positional payload always fails as invalid input |
| Harness.AnyKnownAlgorithmDispatches | main.go:224-241 | any known, non-ignored algorithm is dispatched to the handler of the requested primitive, with no family check |
| Harness.SignatureAcceptsAeadAlgorithm | main.go:235-236 | AES-128-GCM requested as a Signature reaches the signature handler |

## Left out

- Base64 decoding (`base64.StdEncoding.DecodeString`) comes from Go's
  standard library and its source is not part of this model. It is the
  parameter `decode`, so the round trip of section 4 of RFC 4648 (decoding
  an encoding gives back the original bytes) is not stated here.
- Flag parsing (`flag.StringVar`, `flag.Parse`) is not modelled. The four flag
  values and the positional arguments are the fields of `Invocation`.
- Reading standard input (`io.ReadAll(os.Stdin)`) is the parameter `stdin`:
  the bytes read, or the read error's text.
- Logging is not modelled beyond the message text: the `log` output, its
  trailing newline and the error stream. The text of a decoding error is
  whatever the decoder returns.
- The seven `handle*` functions do the cryptography and are not part of this
  model. A `Dispatch` outcome records only the handler chosen and the
  arguments passed to it.
- Strings are sequences of Unicode code points. Go strings are bytes, and
  `strings.TrimSpace` decodes UTF-8, so invalid UTF-8 in an argument is not
  modelled. `IsSpace` follows Go's `unicode.IsSpace` table.
- Harness.PositionalPayloadRejected: assumes only that the decoder rejects
  characters outside the standard alphabet, `=`, `\r` and `\n`. It does not
  model the rest of the decoder.
