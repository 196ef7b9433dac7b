/**
 * JavaScript template literals. A template `q0${a0}q1${a1}...qn` is its
 * literal pieces (the quasis q0..qn) and the texts of its substitutions
 * (a0..an-1); evaluating it interleaves the two. Match is the inverse used to
 * read a generated text back: it recovers the substitutions, provided each
 * one (but the last) is free of the first character of the piece after it.
 */
module TemplateLiteral {
  import opened Wrappers

  /**
   * The value of the template literal with pieces `quasis` and substitution
   * texts `args`. Whatever the substitutions, it starts with the first piece.
   */
  function Fill(quasis: seq<string>, args: seq<string>): (value: string)
    requires |quasis| == |args| + 1
    ensures quasis[0] <= value
    decreases |args|
  {
    if args == [] then quasis[0] else quasis[0] + args[0] + Fill(quasis[1..], args[1..])
  }

  /** The position of the first c in s, or |s| when there is none. */
  function IndexOf(s: string, c: char): (k: nat)
    ensures k <= |s|
    ensures forall i :: 0 <= i < k ==> s[i] != c
    ensures k < |s| ==> s[k] == c
  {
    if s == [] || s[0] == c then 0 else 1 + IndexOf(s[1..], c)
  }

  predicate EndsWith(s: string, suffix: string) {
    |suffix| <= |s| && s[|s| - |suffix|..] == suffix
  }

  /**
   * Reads the substitution texts back from a text of the template's shape:
   * each substitution but the last extends up to the first occurrence of the
   * first character of the piece after it; the last one extends up to the
   * final piece.
   */
  function Match(quasis: seq<string>, s: string): (r: Option<seq<string>>)
    requires |quasis| >= 1
    ensures r.Some? ==> |r.value| + 1 == |quasis| && Fill(quasis, r.value) == s
    decreases |quasis|, 1
  {
    var q := quasis[0];
    if !(q <= s) then None
    else
      assert s == q + s[|q|..];
      MatchAfter(quasis, s[|q|..])
  }

  /** Reads the substitutions from the text that follows the first piece. */
  function MatchAfter(quasis: seq<string>, rest: string): (r: Option<seq<string>>)
    requires |quasis| >= 1
    ensures r.Some? ==> |r.value| + 1 == |quasis| && Fill(quasis, r.value) == quasis[0] + rest
    decreases |quasis|, 0
  {
    if |quasis| == 1 then
      if rest == [] then
        assert quasis[0] + rest == quasis[0];
        Some([])
      else None
    else if |quasis| == 2 then MatchLast(quasis, rest)
    else if quasis[1] == [] then None
    else
      var k := IndexOf(rest, quasis[1][0]);
      if k == |rest| then None
      else
        match Match(quasis[1..], rest[k..])
        case None => None
        case Some(tail) =>
          FillCons(quasis, rest[..k], tail);
          assert rest == rest[..k] + rest[k..];
          Some([rest[..k]] + tail)
  }

  /** The only substitution of a two-piece template extends up to the final piece. */
  function MatchLast(quasis: seq<string>, rest: string): (r: Option<seq<string>>)
    requires |quasis| == 2
    ensures r.Some? ==> |r.value| == 1 && Fill(quasis, r.value) == quasis[0] + rest
  {
    var last := quasis[1];
    if EndsWith(rest, last) then
      var arg := rest[..|rest| - |last|];
      FillCons(quasis, arg, []);
      assert [arg] + [] == [arg];
      assert rest == arg + last;
      Some([arg])
    else None
  }

  lemma FillCons(quasis: seq<string>, arg: string, tail: seq<string>)
    requires |quasis| == |tail| + 2
    ensures Fill(quasis, [arg] + tail) == quasis[0] + arg + Fill(quasis[1..], tail)
  {
    assert ([arg] + tail)[1..] == tail;
  }

  /** Every substitution but the last avoids the first character of the piece that follows it. */
  predicate Delimited(quasis: seq<string>, args: seq<string>)
    requires |quasis| == |args| + 1
  {
    forall i :: 0 <= i < |args| - 1 ==> DelimitedAt(quasis, args, i)
  }

  /** Substitution i avoids the first character of the piece after it. */
  predicate DelimitedAt(quasis: seq<string>, args: seq<string>, i: nat)
    requires |quasis| == |args| + 1 && i < |args|
  {
    quasis[i + 1] != [] && quasis[i + 1][0] !in args[i]
  }

  lemma IndexOfAfter(a: string, b: string, c: char)
    requires c !in a && b != [] && b[0] == c
    ensures IndexOf(a + b, c) == |a|
  {
    assert (a + b)[|a|] == c;
  }

  /** Match inverts Fill on delimited substitutions. */
  lemma {:induction false} MatchFill(quasis: seq<string>, args: seq<string>)
    requires |quasis| == |args| + 1
    requires Delimited(quasis, args)
    ensures Match(quasis, Fill(quasis, args)) == Some(args)
    decreases |args|, 1
  {
    var s := Fill(quasis, args);
    var q := quasis[0];
    if args == [] {
      assert s[|q|..] == [];
    } else {
      var tail := Fill(quasis[1..], args[1..]);
      assert s == q + (args[0] + tail);
      assert s[|q|..] == args[0] + tail;
      MatchAfterFill(quasis, args);
    }
  }

  lemma {:induction false} MatchAfterFill(quasis: seq<string>, args: seq<string>)
    requires |quasis| == |args| + 1 && args != []
    requires Delimited(quasis, args)
    ensures MatchAfter(quasis, args[0] + Fill(quasis[1..], args[1..])) == Some(args)
    decreases |args|, 0
  {
    var tail := Fill(quasis[1..], args[1..]);
    var rest := args[0] + tail;
    if |quasis| == 2 {
      assert tail == quasis[1];
      assert rest[|rest| - |quasis[1]|..] == quasis[1];
      assert rest[..|rest| - |quasis[1]|] == args[0];
      assert [args[0]] == args;
    } else {
      assert DelimitedAt(quasis, args, 0);
      assert tail[0] == quasis[1][0];
      IndexOfAfter(args[0], tail, quasis[1][0]);
      assert rest[..|args[0]|] == args[0] && rest[|args[0]|..] == tail;
      DelimitedTail(quasis, args);
      MatchFill(quasis[1..], args[1..]);
      assert [args[0]] + args[1..] == args;
    }
  }

  lemma DelimitedTail(quasis: seq<string>, args: seq<string>)
    requires |quasis| == |args| + 1 && args != []
    requires Delimited(quasis, args)
    ensures Delimited(quasis[1..], args[1..])
  {
    var q, a := quasis[1..], args[1..];
    forall i | 0 <= i < |a| - 1
      ensures DelimitedAt(q, a, i)
    {
      assert DelimitedAt(quasis, args, i + 1);
      assert q[i + 1] == quasis[i + 2] && a[i] == args[i + 1];
    }
  }

  /** Fill is one-to-one on delimited substitutions. */
  lemma FillInjective(quasis: seq<string>, args1: seq<string>, args2: seq<string>)
    requires |quasis| == |args1| + 1 && |quasis| == |args2| + 1
    requires Delimited(quasis, args1) && Delimited(quasis, args2)
    requires Fill(quasis, args1) == Fill(quasis, args2)
    ensures args1 == args2
  {
    MatchFill(quasis, args1);
    MatchFill(quasis, args2);
  }

  /** Text put in front of the first piece comes out in front of the value. */
  lemma {:induction false} FillPrepend(quasis: seq<string>, args: seq<string>, prefix: string)
    requires |quasis| == |args| + 1
    ensures |quasis[0 := prefix + quasis[0]]| == |args| + 1
    ensures Fill(quasis[0 := prefix + quasis[0]], args) == prefix + Fill(quasis, args)
  {
    var p := quasis[0 := prefix + quasis[0]];
    if args != [] {
      var tail := Fill(quasis[1..], args[1..]);
      assert p[1..] == quasis[1..];
      assert Fill(p, args) == (prefix + quasis[0]) + args[0] + tail;
    }
  }

  /** Text put after the last piece comes out after the value. */
  lemma {:induction false} FillAppend(quasis: seq<string>, args: seq<string>, suffix: string)
    requires |quasis| == |args| + 1
    ensures |quasis[|quasis| - 1 := quasis[|quasis| - 1] + suffix]| == |args| + 1
    ensures Fill(quasis[|quasis| - 1 := quasis[|quasis| - 1] + suffix], args) == Fill(quasis, args) + suffix
    decreases |args|
  {
    var p := quasis[|quasis| - 1 := quasis[|quasis| - 1] + suffix];
    if args != [] {
      assert p[1..] == quasis[1..][|quasis| - 2 := quasis[|quasis| - 1] + suffix];
      FillAppend(quasis[1..], args[1..], suffix);
    }
  }

  /** The value ends with the last piece. */
  lemma {:induction false} FillEndsWith(quasis: seq<string>, args: seq<string>)
    requires |quasis| == |args| + 1
    ensures EndsWith(Fill(quasis, args), quasis[|quasis| - 1])
    decreases |args|
  {
    if args != [] {
      FillEndsWith(quasis[1..], args[1..]);
    }
  }

  /** Two substitutions are delimited when the piece between them starts with a character the first one lacks. */
  lemma DelimitedPair(quasis: seq<string>, x: string, y: string)
    requires |quasis| == 3 && quasis[1] != [] && quasis[1][0] !in x
    ensures Delimited(quasis, [x, y])
  {
    assert DelimitedAt(quasis, [x, y], 0);
  }

  /** A character found in no piece and no substitution is not in the value. */
  lemma {:induction false} FillAvoids(quasis: seq<string>, args: seq<string>, c: char)
    requires |quasis| == |args| + 1
    requires forall i :: 0 <= i < |quasis| ==> c !in quasis[i]
    requires forall i :: 0 <= i < |args| ==> c !in args[i]
    ensures c !in Fill(quasis, args)
    decreases |args|
  {
    if args != [] {
      assert quasis[0] == quasis[0] && c !in args[0];
      FillAvoids(quasis[1..], args[1..], c);
    }
  }
}
