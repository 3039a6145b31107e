/**
  The algorithm catalog of the interoperability harness: nine static tables of
  algorithm identifiers, their concatenation `allAlgorithms`, and the two
  linear lookups `isKnown` and `isIgnored`.
*/
module Catalog {

  type Algorithm = string

  // HMAC, HKDF
  const SHA2_256: Algorithm := "SHA2-256"
  const SHA2_384: Algorithm := "SHA2-384"
  const SHA2_512: Algorithm := "SHA2-512"
  const SHA3_256: Algorithm := "SHA3-256"
  const SHA3_384: Algorithm := "SHA3-384"
  const SHA3_512: Algorithm := "SHA3-512"
  const AES_128: Algorithm := "AES-128"
  const AES_256: Algorithm := "AES-256"
  const BLAKE3: Algorithm := "BLAKE3"

  // AEAD
  const AES_128_GCM: Algorithm := "AES-128-GCM"
  const AES_256_GCM: Algorithm := "AES-256-GCM"
  const ChaCha20Poly1305: Algorithm := "ChaCha20Poly1305"
  const XChaCha20Poly1305: Algorithm := "XChaCha20Poly1305"

  // DAEAD
  const AES_SIV: Algorithm := "AES-SIV"

  // Signature
  const ES256: Algorithm := "ES256"
  const ES384: Algorithm := "ES384"
  const ES512: Algorithm := "ES512"
  const Ed25519: Algorithm := "Ed25519"
  const RS256: Algorithm := "RS256"
  const RS384: Algorithm := "RS384"
  const RS512: Algorithm := "RS512"
  const PS256: Algorithm := "PS256"
  const PS384: Algorithm := "PS384"
  const PS512: Algorithm := "PS512"

  const IgnoredAlgorithms: seq<Algorithm> := [BLAKE3]
  const MacAlgorithms: seq<Algorithm> :=
    [SHA2_256, SHA2_384, SHA2_512, SHA3_256, SHA3_384, SHA3_512, AES_128, AES_256]
  const HmacAlgorithms: seq<Algorithm> :=
    [SHA2_256, SHA2_384, SHA2_512, SHA3_256, SHA3_384, SHA3_512]
  const HkdfAlgorithms: seq<Algorithm> :=
    [SHA2_256, SHA2_384, SHA2_512, SHA3_256, SHA3_384, SHA3_512]
  const AeadAlgorithms: seq<Algorithm> :=
    [AES_128_GCM, AES_256_GCM, ChaCha20Poly1305, XChaCha20Poly1305]
  const DaeadAlgorithms: seq<Algorithm> := [AES_SIV]
  const SignatureAlgorithms: seq<Algorithm> :=
    [ES256, ES384, ES512, Ed25519, RS256, RS384, RS512, PS256, PS384, PS512]
  const AgreementAlgorithms: seq<Algorithm> := []
  const HpkeAlgorithms: seq<Algorithm> := []

  /** The nine tables, in the order they are passed to `join` to build `allAlgorithms`. */
  const Tables: seq<seq<Algorithm>> :=
    [IgnoredAlgorithms, MacAlgorithms, HmacAlgorithms, HkdfAlgorithms, AeadAlgorithms,
     DaeadAlgorithms, SignatureAlgorithms, AgreementAlgorithms, HpkeAlgorithms]

  /** `allAlgorithms`, computed once at package initialisation. */
  const AllAlgorithms: seq<Algorithm> := Concat(Tables)

  /** The summed lengths of `lists`. */
  function TotalLength(lists: seq<seq<Algorithm>>): nat
  {
    if lists == [] then 0 else TotalLength(lists[..|lists| - 1]) + |lists[|lists| - 1]|
  }

  /** The lists appended one after the other, the last one appended last. */
  function Concat(lists: seq<seq<Algorithm>>): (all: seq<Algorithm>)
    ensures |all| == TotalLength(lists)
  {
    if lists == [] then [] else Concat(lists[..|lists| - 1]) + lists[|lists| - 1]
  }

  /** `join`: grows `all` by appending each argument list in turn. */
  method Join(lists: seq<seq<Algorithm>>) returns (all: seq<Algorithm>)
    ensures all == Concat(lists)
  {
    all := [];
    for i := 0 to |lists|
      invariant all == Concat(lists[..i])
    {
      assert lists[..i + 1][..i] == lists[..i];
      all := all + lists[i];
    }
    assert lists[..|lists|] == lists;
  }

  /**
    Each list occupies, unchanged, the stretch of the result that starts after
    the lists before it: the result is the inputs in argument order.
  */
  lemma {:induction false} ConcatPlacement(lists: seq<seq<Algorithm>>, i: nat, j: nat)
    requires i < |lists| && j < |lists[i]|
    ensures TotalLength(lists[..i]) + j < |Concat(lists)|
    ensures Concat(lists)[TotalLength(lists[..i]) + j] == lists[i][j]
  {
    var n := |lists| - 1;
    var front := lists[..n];
    assert Concat(lists) == Concat(front) + lists[n];
    if i < n {
      assert front[..i] == lists[..i];
      ConcatPlacement(front, i, j);
    } else {
      assert lists[..i] == front;
    }
  }

  /** An identifier is in the concatenation exactly when it is in one of the lists. */
  lemma {:induction false} ConcatMembership(lists: seq<seq<Algorithm>>, a: Algorithm)
    ensures a in Concat(lists) <==> exists i :: 0 <= i < |lists| && a in lists[i]
  {
    if lists != [] {
      var n := |lists| - 1;
      var front := lists[..n];
      assert Concat(lists) == Concat(front) + lists[n];
      ConcatMembership(front, a);
      if a in Concat(front) {
        var i :| 0 <= i < |front| && a in front[i];
        assert lists[i] == front[i];
      } else if a in lists[n] {
      } else {
        forall i | 0 <= i < |lists|
          ensures a !in lists[i]
        {
          if i < n {
            assert lists[i] == front[i];
          }
        }
      }
    }
  }

  /** One of the read-only loops with early return: reports whether `a` occurs in `table`. */
  method Scan(table: seq<Algorithm>, a: Algorithm) returns (found: bool)
    ensures found <==> a in table
  {
    for i := 0 to |table|
      invariant a !in table[..i]
    {
      if a == table[i] {
        return true;
      }
    }
    return false;
  }

  /** The identifier appears in `allAlgorithms`. */
  predicate Known(a: Algorithm)
  {
    a in AllAlgorithms
  }

  /** The identifier appears in `ignoredAlgorithms`. */
  predicate Ignored(a: Algorithm)
  {
    a in IgnoredAlgorithms
  }

  /** `isKnown`: a linear scan of `allAlgorithms`. */
  method IsKnown(a: Algorithm) returns (known: bool)
    ensures known <==> Known(a)
  {
    known := Scan(AllAlgorithms, a);
  }

  /** `isIgnored`: a linear scan of `ignoredAlgorithms`. */
  method IsIgnored(a: Algorithm) returns (ignored: bool)
    ensures ignored <==> Ignored(a)
  {
    ignored := Scan(IgnoredAlgorithms, a);
  }

  /** `allAlgorithms` holds all 36 entries of the nine tables, duplicates included. */
  lemma AllAlgorithmsLength()
    ensures |AllAlgorithms| == 36
  {
    assert TotalLength(Tables[..0]) == 0;
    assert Tables[..1][..0] == Tables[..0];
    assert TotalLength(Tables[..1]) == 1;
    assert Tables[..2][..1] == Tables[..1];
    assert TotalLength(Tables[..2]) == 9;
    assert Tables[..3][..2] == Tables[..2];
    assert TotalLength(Tables[..3]) == 15;
    assert Tables[..4][..3] == Tables[..3];
    assert TotalLength(Tables[..4]) == 21;
    assert Tables[..5][..4] == Tables[..4];
    assert TotalLength(Tables[..5]) == 25;
    assert Tables[..6][..5] == Tables[..5];
    assert TotalLength(Tables[..6]) == 26;
    assert Tables[..7][..6] == Tables[..6];
    assert TotalLength(Tables[..7]) == 36;
    assert Tables[..8][..7] == Tables[..7];
    assert TotalLength(Tables[..8]) == 36;
    assert Tables[..9][..8] == Tables[..8];
    assert TotalLength(Tables[..9]) == 36;
    assert Tables[..9] == Tables;
  }

  /** Known exactly when the identifier occurs in at least one of the nine tables. */
  lemma KnownIffInSomeTable(a: Algorithm)
    ensures Known(a) <==> exists i :: 0 <= i < |Tables| && a in Tables[i]
  {
    ConcatMembership(Tables, a);
  }

  /**
    The SHA entries that the HMAC and HKDF tables repeat from the MAC table, and
    the two empty tables, contribute nothing: membership in the five
    distinct families alone decides `isKnown`.
  */
  lemma KnownIffInDistinctFamilies(a: Algorithm)
    ensures Known(a) <==>
      a in IgnoredAlgorithms || a in MacAlgorithms || a in AeadAlgorithms
      || a in DaeadAlgorithms || a in SignatureAlgorithms
  {
    KnownIffInSomeTable(a);
    if Known(a) {
      var i :| 0 <= i < |Tables| && a in Tables[i];
      assert i != 7 && i != 8;
      if i == 2 || i == 3 {
        assert a in MacAlgorithms;
      }
    } else {
      assert a !in Tables[0] && a !in Tables[1] && a !in Tables[4];
      assert a !in Tables[5] && a !in Tables[6];
    }
  }

  /** Every ignored identifier is also known: `ignoredAlgorithms` is one of the joined tables. */
  lemma IgnoredImpliesKnown(a: Algorithm)
    ensures Ignored(a) ==> Known(a)
  {
    if Ignored(a) {
      KnownIffInSomeTable(a);
      assert a in Tables[0];
    }
  }

  /** `BLAKE3` is both known and ignored, and it is the only ignored identifier. */
  lemma IgnoredIsExactlyBlake3(a: Algorithm)
    ensures Known(BLAKE3) && Ignored(BLAKE3)
    ensures Ignored(a) <==> a == BLAKE3
  {
    IgnoredImpliesKnown(BLAKE3);
  }

  /** Every named constant other than `BLAKE3` is known and not ignored. */
  lemma SupportedConstantsKnown(a: Algorithm)
    requires a in MacAlgorithms + AeadAlgorithms + DaeadAlgorithms + SignatureAlgorithms
    ensures Known(a) && !Ignored(a)
  {
    KnownIffInDistinctFamilies(a);
  }
}
