/** The command line's boolean flag parser `str2bool`: None is false, a bool is
    itself, and anything else is true exactly when its text, lower-cased, is
    one of the words yes, true, t, y, 1. */
module CliFlags {

  /** The value handed to str2bool: None, a bool, or any other value, which
      the parser only ever sees through its text str(v). */
  datatype Arg = NoneArg | BoolArg(b: bool) | TextArg(text: string)

  /** The words that switch a flag on, all in lower case. */
  const TruthyWords: set<string> := {"yes", "true", "t", "y", "1"}

  predicate IsUpper(c: char)
  {
    'A' <= c <= 'Z'
  }

  function LowerChar(c: char): char
  {
    if IsUpper(c) then (c as int + 32) as char else c
  }

  function UpperChar(c: char): char
  {
    if 'a' <= c <= 'z' then (c as int - 32) as char else c
  }

  /** str.lower() over the ASCII letters: same length, each character lowered. */
  function Lower(s: string): (r: string)
    ensures |r| == |s|
    ensures forall i :: 0 <= i < |s| ==> r[i] == LowerChar(s[i])
  {
    if s == [] then [] else [LowerChar(s[0])] + Lower(s[1..])
  }

  function Str2Bool(v: Arg): (r: bool)
    ensures r ==> v.BoolArg? || (v.TextArg? && 1 <= |v.text| <= 4)
  {
    match v
    case NoneArg => false
    case BoolArg(b) => b
    case TextArg(s) => Lower(s) in TruthyWords
  }

  /** Reference definition of a case-insensitive match against a word with no
      upper-case letters: s spells w, with any of w's letters in upper case. */
  predicate EqualIgnoringCase(s: string, w: string)
  {
    |s| == |w| && forall i :: 0 <= i < |s| ==> s[i] == w[i] || s[i] == UpperChar(w[i])
  }

  /** Lowering c gives the non-upper-case d exactly when c is d or d's capital. */
  lemma LowerCharMatches(c: char, d: char)
    requires !IsUpper(d)
    ensures LowerChar(c) == d <==> c == d || c == UpperChar(d)
  {
    if IsUpper(c) {
      if LowerChar(c) == d {
        assert c as int == d as int - 32;
      }
    }
  }

  /** Lower-casing s gives the lower-case word w exactly when s matches w
      ignoring case. */
  lemma LowerEqualsIff(s: string, w: string)
    requires forall i :: 0 <= i < |w| ==> !IsUpper(w[i])
    ensures Lower(s) == w <==> EqualIgnoringCase(s, w)
  {
    if |s| == |w| {
      forall i | 0 <= i < |s|
        ensures Lower(s)[i] == w[i] <==> s[i] == w[i] || s[i] == UpperChar(w[i])
      {
        LowerCharMatches(s[i], w[i]);
      }
    }
  }

  lemma TruthyWordsAreLowerCase(w: string)
    requires w in TruthyWords
    ensures forall i :: 0 <= i < |w| ==> !IsUpper(w[i])
  {
  }

  /** A textual flag is on exactly when it spells one of the truthy words in
      any mix of upper and lower case. */
  lemma Str2BoolText(s: string)
    ensures Str2Bool(TextArg(s)) <==> exists w :: w in TruthyWords && EqualIgnoringCase(s, w)
  {
    if Str2Bool(TextArg(s)) {
      var w := Lower(s);
      TruthyWordsAreLowerCase(w);
      LowerEqualsIff(s, w);
    }
    if w :| w in TruthyWords && EqualIgnoringCase(s, w) {
      TruthyWordsAreLowerCase(w);
      LowerEqualsIff(s, w);
    }
  }

  /** None switches a flag off, and a bool passes through unchanged. */
  lemma Str2BoolOnNonText(b: bool)
    ensures !Str2Bool(NoneArg)
    ensures Str2Bool(BoolArg(b)) == b
  {
  }

  /** Lower-casing the text first changes nothing: the parser is case-blind. */
  lemma {:induction false} LowerIdempotent(s: string)
    ensures Lower(Lower(s)) == Lower(s)
  {
    forall i | 0 <= i < |s|
      ensures Lower(Lower(s))[i] == Lower(s)[i]
    {
      assert !IsUpper(LowerChar(s[i]));
    }
  }

  lemma Str2BoolIgnoresCase(s: string)
    ensures Str2Bool(TextArg(Lower(s))) == Str2Bool(TextArg(s))
  {
    LowerIdempotent(s);
  }

  /** The values the command line typically sees for --invest_diff. */
  lemma Str2BoolSamples()
    ensures Str2Bool(TextArg("True")) && Str2Bool(TextArg("YES")) && Str2Bool(TextArg("1"))
    ensures !Str2Bool(TextArg("False")) && !Str2Bool(TextArg("no")) && !Str2Bool(TextArg("0"))
    ensures !Str2Bool(TextArg(""))
  {
    assert Lower("True") == "true";
    assert Lower("YES") == "yes";
    assert Lower("1") == "1";
    assert |Lower("False")| == 5;
    assert Lower("no")[0] == 'n';
    assert Lower("0") == "0";
  }
}
