// Token trees as the macros see them: spans, spacing and hygiene are dropped.
// A raw `#[cfg(..)]` predicate is the token stream between its parentheses;
// two predicates are the same text exactly when their streams are equal.
module Tokens {

  datatype Option<+T> = None | Some(value: T)

  datatype Delim = Parenthesis | Bracket | Brace | Invisible

  datatype Token =
    | Group(delim: Delim, stream: seq<Token>)
    | Punct(ch: char)
    | Ident(name: string)
    | Literal(text: string)
      // `Sig { entry: &TABLE[index], target: &target }`, the expression the
      // second pass puts in place of a verb's first argument.
    | Sig(write: bool, index: LenExpr, target: seq<Token>)

  type Raw = seq<Token>

  // A predicate the macros assemble out of raw ones.
  datatype Pred =
    | Atom(raw: Raw)
    | All(preds: seq<Pred>)
    | Any(preds: seq<Pred>)

  // A cfg-aware array length or index: a literal count, or a sum whose terms
  // are `1usize` (None) or a block that is 1 under the predicate and 0 without.
  datatype LenExpr =
    | Count(n: nat)
    | Sum(terms: seq<Option<Pred>>)

  predicate IsPunct(t: Token, c: char) { t.Punct? && t.ch == c }

  predicate IsIdent(t: Token, name: string) { t.Ident? && t.name == name }

  predicate IsGroup(t: Token, d: Delim) { t.Group? && t.delim == d }
}
