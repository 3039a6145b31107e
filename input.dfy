/**
  The text side of payload selection: the positional arguments after the first
  are joined into one string, each with a leading space, and that string is
  tested for blankness with Go's `strings.TrimSpace`. Strings are sequences of
  Unicode code points.
*/
module Input {

  /** Go's `unicode.IsSpace`: the code points with the Unicode White_Space property. */
  predicate IsSpace(c: char)
  {
    || c == '\t' || c == '\n' || c == '\U{0B}' || c == '\U{0C}' || c == '\r' || c == ' '
    || c == '\U{85}' || c == '\U{A0}' || c == '\U{1680}'
    || ('\U{2000}' <= c <= '\U{200A}')
    || c == '\U{2028}' || c == '\U{2029}' || c == '\U{202F}' || c == '\U{205F}' || c == '\U{3000}'
  }

  /** Every code point of `s` is white space (the empty string included). */
  predicate IsBlank(s: string)
  {
    forall i :: 0 <= i < |s| ==> IsSpace(s[i])
  }

  /** `s` with its leading white space removed. */
  function TrimLeft(s: string): (r: string)
    ensures |r| <= |s| && r == s[|s| - |r|..]
    ensures IsBlank(s[..|s| - |r|])
    ensures r == [] || !IsSpace(r[0])
  {
    if s != [] && IsSpace(s[0]) then TrimLeft(s[1..]) else s
  }

  /** `s` with its trailing white space removed. */
  function TrimRight(s: string): (r: string)
    ensures |r| <= |s| && r == s[..|r|]
    ensures IsBlank(s[|r|..])
    ensures r == [] || !IsSpace(r[|r| - 1])
  {
    if s != [] && IsSpace(s[|s| - 1]) then TrimRight(s[..|s| - 1]) else s
  }

  /** Go's `strings.TrimSpace`: leading and trailing white space removed. */
  function TrimSpace(s: string): string
  {
    TrimRight(TrimLeft(s))
  }

  /** Trimming leaves nothing exactly when the string is blank. */
  lemma TrimSpaceEmptyIffBlank(s: string)
    ensures TrimSpace(s) == [] <==> IsBlank(s)
  {
  }

  /** `" " + args[0] + " " + args[1] + ...`: what the loop over the arguments builds. */
  function Spaced(args: seq<string>): string
  {
    if args == [] then "" else Spaced(args[..|args| - 1]) + " " + args[|args| - 1]
  }

  /** The loop that builds `sp`: `sp += " " + ap` for every argument `ap`. */
  method JoinArguments(args: seq<string>) returns (sp: string)
    ensures sp == Spaced(args)
  {
    sp := "";
    for i := 0 to |args|
      invariant sp == Spaced(args[..i])
    {
      assert args[..i + 1][..i] == args[..i];
      sp := sp + " " + args[i];
    }
    assert args[..|args|] == args;
  }

  /** A non-empty joined string always starts with the separating space. */
  lemma {:induction false} SpacedStartsWithSpace(args: seq<string>)
    requires args != []
    ensures |Spaced(args)| > 0 && Spaced(args)[0] == ' '
  {
    var n := |args| - 1;
    if n > 0 {
      SpacedStartsWithSpace(args[..n]);
    }
  }

  /** The joined string is blank exactly when every argument is blank. */
  lemma {:induction false} SpacedBlankIffArgumentsBlank(args: seq<string>)
    ensures IsBlank(Spaced(args)) <==> forall i :: 0 <= i < |args| ==> IsBlank(args[i])
  {
    if args != [] {
      var n := |args| - 1;
      var front := args[..n];
      var head := Spaced(front) + " ";
      assert Spaced(args) == head + args[n];
      SpacedBlankIffArgumentsBlank(front);
      if IsBlank(Spaced(args)) {
        forall i | 0 <= i < |args|
          ensures IsBlank(args[i])
        {
          if i < n {
            assert args[i] == front[i];
            assert IsBlank(Spaced(front)) by {
              forall k | 0 <= k < |Spaced(front)|
                ensures IsSpace(Spaced(front)[k])
              {
                assert Spaced(front)[k] == Spaced(args)[k];
              }
            }
          } else {
            forall k | 0 <= k < |args[n]|
              ensures IsSpace(args[n][k])
            {
              assert args[n][k] == Spaced(args)[|head| + k];
            }
          }
        }
      } else {
        var k :| 0 <= k < |Spaced(args)| && !IsSpace(Spaced(args)[k]);
        if k < |Spaced(front)| {
          assert Spaced(front)[k] == Spaced(args)[k];
          var i :| 0 <= i < n && !IsBlank(front[i]);
          assert args[i] == front[i];
        } else {
          assert k >= |head|;
          assert args[n][k - |head|] == Spaced(args)[k];
        }
      }
    }
  }
}
