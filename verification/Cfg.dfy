// The predicates and lengths the macros assemble, and what they come to in a
// build. A build is any assignment of truth to raw predicates: every set of
// active flags induces one.
module Cfg {
  import opened Tokens

  type Build = Raw -> bool

  function Holds(p: Pred, v: Build): bool
    decreases p
  {
    match p
    case Atom(raw) => v(raw)
    case All(preds) => forall k :: 0 <= k < |preds| ==> Holds(preds[k], v)
    case Any(preds) => exists k :: 0 <= k < |preds| && Holds(preds[k], v)
  }

  // The entries of one list an item keeps in a build.
  predicate Live(cfgs: seq<Raw>, v: Build) {
    forall k :: 0 <= k < |cfgs| ==> v(cfgs[k])
  }

  // supervisor-macros/src/lib.rs:390-403, on the attributes' predicates
  function CfgPredicate(attrs: seq<Pred>): Option<Pred> {
    if |attrs| == 0 then None
    else if |attrs| == 1 then Some(attrs[0])
    else Some(All(attrs))
  }

  predicate Kept(attrs: seq<Pred>, v: Build) {
    forall k :: 0 <= k < |attrs| ==> Holds(attrs[k], v)
  }

  lemma CfgPredicateMeaning(attrs: seq<Pred>, v: Build)
    ensures match CfgPredicate(attrs)
            case None => attrs == []
            case Some(p) => attrs != [] && (Holds(p, v) <==> Kept(attrs, v))
    ensures |attrs| == 1 ==> CfgPredicate(attrs) == Some(attrs[0])
  {
  }

  function Eval(e: LenExpr, v: Build): nat {
    match e
    case Count(n) => n
    case Sum(terms) => EvalTerms(terms, v)
  }

  function EvalTerms(terms: seq<Option<Pred>>, v: Build): nat {
    if terms == [] then 0
    else (if terms[0].None? || Holds(terms[0].value, v) then 1 else 0) + EvalTerms(terms[1..], v)
  }

  // supervisor-macros/src/lib.rs:98-119
  function CfgAwareLen(entries: seq<seq<Pred>>): LenExpr {
    if forall k :: 0 <= k < |entries| ==> CfgPredicate(entries[k]).None? then Count(|entries|)
    else Sum(seq(|entries|, k requires 0 <= k < |entries| => CfgPredicate(entries[k])))
  }

  // How many entries an array of these attributes keeps in a build.
  function KeptCount(entries: seq<seq<Pred>>, v: Build): nat {
    if entries == [] then 0
    else (if Kept(entries[0], v) then 1 else 0) + KeptCount(entries[1..], v)
  }

  // A cfg-aware length counts the entries its array keeps, in every build.
  lemma CfgAwareLenCounts(entries: seq<seq<Pred>>, v: Build)
    ensures Eval(CfgAwareLen(entries), v) == KeptCount(entries, v)
  {
    if forall k :: 0 <= k < |entries| ==> CfgPredicate(entries[k]).None? {
      AllKept(entries, v);
    } else {
      TermsCount(entries, v);
    }
  }

  lemma {:induction false} AllKept(entries: seq<seq<Pred>>, v: Build)
    requires forall k :: 0 <= k < |entries| ==> CfgPredicate(entries[k]).None?
    ensures KeptCount(entries, v) == |entries|
  {
    if entries != [] {
      CfgPredicateMeaning(entries[0], v);
      AllKept(entries[1..], v);
    }
  }

  lemma {:induction false} TermsCount(entries: seq<seq<Pred>>, v: Build)
    ensures EvalTerms(seq(|entries|, k requires 0 <= k < |entries| => CfgPredicate(entries[k])), v)
         == KeptCount(entries, v)
  {
    if entries != [] {
      var terms := seq(|entries|, k requires 0 <= k < |entries| => CfgPredicate(entries[k]));
      var rest := entries[1..];
      assert terms[1..] == seq(|rest|, k requires 0 <= k < |rest| => CfgPredicate(rest[k]));
      CfgPredicateMeaning(entries[0], v);
      TermsCount(rest, v);
    }
  }
}
