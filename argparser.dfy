/**
 * include/Argparser.hpp: the command-line tokens of the program and the
 * queries over them. A flag's value is the token right after the flag's first
 * occurrence, whatever that token is.
 */
module Argparser {

  /** `std::find`: the index of the first occurrence of x in s, or |s| when there is none. */
  function Find(s: seq<string>, x: string): (i: nat)
    ensures i <= |s|
    ensures i < |s| ==> s[i] == x
    ensures forall j :: 0 <= j < i ==> s[j] != x
    ensures i == |s| <==> x !in s
  {
    if s == [] then 0
    else if s[0] == x then 0
    else 1 + Find(s[1..], x)
  }

  /** The index at which x occurs first in s. */
  lemma FindFirst(s: seq<string>, x: string, i: int)
    requires 0 <= i < |s| && s[i] == x
    requires forall j :: 0 <= j < i ==> s[j] != x
    ensures Find(s, x) == i
  {
  }

  /** The entries of s at positions 0, 2, 4, ... in order. */
  function Evens(s: seq<string>): (r: seq<string>)
    ensures |r| == (|s| + 1) / 2
    ensures forall k :: 0 <= k < |r| ==> r[k] == s[2 * k]
  {
    seq((|s| + 1) / 2, k requires 0 <= k < (|s| + 1) / 2 => s[2 * k])
  }

  /** Flag and value pairs laid out one after the other: `-a x -b y ...`. */
  function Flatten(pairs: seq<(string, string)>): (s: seq<string>)
    ensures |s| == 2 * |pairs|
    ensures forall k :: 0 <= k < |pairs| ==> s[2 * k] == pairs[k].0 && s[2 * k + 1] == pairs[k].1
  {
    if pairs == [] then []
    else [pairs[0].0, pairs[0].1] + Flatten(pairs[1..])
  }

  class Argparser {
    /** The program arguments without the program name. */
    var tokens: seq<string>

    /** Copies argv[1..argc - 1] into the tokens, in order; argv is given with argc == |argv|. */
    constructor (argv: seq<string>)
      ensures |argv| > 0 ==> tokens == argv[1..]
      ensures |argv| == 0 ==> tokens == []
    {
      tokens := [];
      new;
      var i := 1;
      while i < |argv|
        invariant |argv| > 0 ==> 1 <= i <= |argv| && tokens == argv[1..i]
        invariant |argv| == 0 ==> tokens == []
      {
        tokens := tokens + [argv[i]];
        i := i + 1;
      }
    }

    /** `check_flag`: whether the flag is one of the tokens. */
    function CheckFlag(flag: string): (b: bool)
      reads this
      ensures b <==> exists i :: 0 <= i < |tokens| && tokens[i] == flag
    {
      Find(tokens, flag) != |tokens|
    }

    /**
     * The string `get_flag`: the token after the first occurrence of the flag,
     * or "" when the flag is absent or is the last token.
     */
    function GetFlag(flag: string): (r: string)
      reads this
      ensures (forall i :: 0 <= i < |tokens| - 1 ==> tokens[i] != flag) ==> r == ""
      ensures forall i :: 0 <= i < |tokens| - 1 && tokens[i] == flag && (forall j :: 0 <= j < i ==> tokens[j] != flag) ==> r == tokens[i + 1]
    {
      var pos := Find(tokens, flag);
      if pos != |tokens| && pos + 1 != |tokens| then tokens[pos + 1] else ""
    }

    /**
     * The templated `get_flag<T>`: the token after the first occurrence of the
     * flag read by the string stream, or T(0) when the flag is absent or last.
     * The stream extraction is the parameter cast and T(0) is zero.
     */
    function GetFlagAs<T>(flag: string, zero: T, cast: string -> T): (r: T)
      reads this
      ensures (forall i :: 0 <= i < |tokens| - 1 ==> tokens[i] != flag) ==> r == zero
      ensures forall i :: 0 <= i < |tokens| - 1 && tokens[i] == flag && (forall j :: 0 <= j < i ==> tokens[j] != flag) ==> r == cast(tokens[i + 1])
    {
      var pos := Find(tokens, flag);
      if pos != |tokens| && pos + 1 != |tokens| then cast(tokens[pos + 1]) else zero
    }

    /** `get_flags`: the tokens at even positions, collected by a loop stepping by two. */
    method GetFlags() returns (flags: seq<string>)
      ensures flags == Evens(tokens)
    {
      flags := [];
      var i := 0;
      while i < |tokens|
        invariant 0 <= i <= |tokens| + 1 && i % 2 == 0
        invariant |flags| == i / 2
        invariant forall k :: 0 <= k < |flags| ==> flags[k] == tokens[2 * k]
      {
        flags := flags + [tokens[i]];
        i := i + 2;
      }
    }
  }

  /** A value is reported only for a flag that is present. */
  lemma GetFlagPresent(p: Argparser, flag: string)
    requires p.GetFlag(flag) != ""
    ensures p.CheckFlag(flag)
    ensures p.GetFlagAs(flag, "", s => s) == p.GetFlag(flag)
  {
  }

  /** The token after the flag is its value even when it is itself a flag. */
  lemma NextTokenEvenIfFlag(p: Argparser)
    requires p.tokens == ["-a", "-b", "x"]
    ensures p.GetFlag("-a") == "-b"
    ensures p.GetFlag("x") == ""
    ensures p.GetFlag("-c") == ""
    ensures p.CheckFlag("x") && !p.CheckFlag("-c")
  {
    assert p.tokens[0] == "-a";
  }

  /** The keys of flag and value pairs laid out in order. */
  function Keys(pairs: seq<(string, string)>): (ks: seq<string>)
    ensures |ks| == |pairs|
    ensures forall k :: 0 <= k < |pairs| ==> ks[k] == pairs[k].0
  {
    seq(|pairs|, k requires 0 <= k < |pairs| => pairs[k].0)
  }

  /** Pair k's key is first found at position 2k when the keys are distinct and no value is a key. */
  predicate WellFormedPairs(pairs: seq<(string, string)>)
  {
    (forall j, k :: 0 <= j < k < |pairs| ==> pairs[j].0 != pairs[k].0) &&
    (forall j, k :: 0 <= j < |pairs| && 0 <= k < |pairs| ==> pairs[j].1 != pairs[k].0)
  }

  /** Under WellFormedPairs, no token before position 2k is pair k's key. */
  lemma KeyFirstAt(pairs: seq<(string, string)>, k: int)
    requires WellFormedPairs(pairs)
    requires 0 <= k < |pairs|
    ensures forall j :: 0 <= j < 2 * k ==> Flatten(pairs)[j] != pairs[k].0
  {
    var t := Flatten(pairs);
    forall j | 0 <= j < 2 * k
      ensures t[j] != pairs[k].0
    {
      var h := j / 2;
      if j % 2 == 0 {
        assert t[2 * h] == pairs[h].0;
      } else {
        assert t[2 * h + 1] == pairs[h].1;
      }
    }
  }

  /** On a command line `-a x -b y ...`, `get_flags` lists the flags. */
  lemma FlagsOfPairs(pairs: seq<(string, string)>)
    ensures Evens(Flatten(pairs)) == Keys(pairs)
  {
    var t := Flatten(pairs);
    forall k | 0 <= k < |pairs|
      ensures Evens(t)[k] == Keys(pairs)[k]
    {
      assert t[2 * k] == pairs[k].0;
    }
  }

  /**
   * On a command line `-a x -b y ...` whose flags are distinct and whose
   * values are not flags, `get_flag` of each flag is its value.
   */
  lemma ValueOfPairedFlag(p: Argparser, pairs: seq<(string, string)>, k: int)
    requires p.tokens == Flatten(pairs)
    requires WellFormedPairs(pairs)
    requires 0 <= k < |pairs|
    ensures p.GetFlag(pairs[k].0) == pairs[k].1
  {
    KeyFirstAt(pairs, k);
    FindFirst(p.tokens, pairs[k].0, 2 * k);
  }
}
