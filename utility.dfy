/** Utility.kt: sentence casing, counting optional parameters, find-first. */
module Utility {
  import opened Types
  import opened Text

  /** String.sentenceForm(): the first character upper-cased, the rest lower-cased.
      Indexing `this[0]` fails on the empty string, hence the precondition. */
  function SentenceForm(s: string): (r: string)
    requires |s| > 0
    ensures |r| == |s|
    ensures r[0] == UpperChar(s[0])
    ensures forall i :: 1 <= i < |s| ==> r[i] == LowerChar(s[i])
  {
    [UpperChar(s[0])] + Lower(s[1..])
  }

  lemma SentenceFormIdempotent(s: string)
    requires |s| > 0
    ensures SentenceForm(SentenceForm(s)) == SentenceForm(s)
  {
  }

  /** Sentence casing turns every non-optional enum name into the Kotlin type name. */
  lemma SentenceFormOfNames(k: Kind)
    ensures SentenceForm(Name(KindType(k))) == KotlinName(k)
  {
    match k
    case Bool => assert SentenceForm("BOOLEAN") == "Boolean";
    case Dbl => assert SentenceForm("DOUBLE") == "Double";
    case Int => assert SentenceForm("INT") == "Int";
    case Str => assert SentenceForm("STRING") == "String";
  }

  /** KFunction.optionalCount(): the number of parameters of an Optional type. */
  function OptionalCount(ps: seq<Param>): (n: nat)
    ensures n <= |ps|
  {
    if |ps| == 0 then 0 else (if ps[0].ty.Opt? then 1 else 0) + OptionalCount(ps[1..])
  }

  /** KFunction.hasOptionals(). */
  predicate HasOptionals(ps: seq<Param>) {
    OptionalCount(ps) > 0
  }

  lemma {:induction false} HasOptionalsIff(ps: seq<Param>)
    ensures HasOptionals(ps) <==> exists i :: 0 <= i < |ps| && ps[i].ty.Opt?
  {
    if |ps| > 0 {
      HasOptionalsIff(ps[1..]);
      if exists i :: 0 <= i < |ps| && ps[i].ty.Opt? {
        var i :| 0 <= i < |ps| && ps[i].ty.Opt?;
        if i > 0 { assert ps[1..][i - 1].ty.Opt?; }
      }
      if exists i :: 0 <= i < |ps[1..]| && ps[1..][i].ty.Opt? {
        var i :| 0 <= i < |ps[1..]| && ps[1..][i].ty.Opt?;
        assert ps[i + 1].ty.Opt?;
      }
    }
  }

  /** List.findFirst(predicate): the first element satisfying it, if any. */
  method FindFirst<T>(s: seq<T>, p: T -> bool) returns (r: Option<T>)
    ensures r.None? <==> forall i :: 0 <= i < |s| ==> !p(s[i])
    ensures r.Some? ==> exists k :: 0 <= k < |s| && s[k] == r.value && p(s[k]) &&
                                    forall j :: 0 <= j < k ==> !p(s[j])
  {
    for i := 0 to |s|
      invariant forall j :: 0 <= j < i ==> !p(s[j])
    {
      if p(s[i]) {
        return Some(s[i]);
      }
    }
    return None;
  }
}
