/**
 * The seven special-form tags of the language and the symbol each one prints
 * as (src/keywords.rs).
 */
module Keywords {

  /** A closed enumeration; equality is structural. */
  datatype Keyword = Def | Lambda | Arrow | External | Id | Ignore | Nil

  /** The spelling `Display` writes for a keyword. */
  function Spelling(k: Keyword): (s: string)
    ensures |s| > 0
  {
    match k
    case Def => "δ"
    case Lambda => "λ"
    case Arrow => "->"
    case External => "ε"
    case Id => "ι"
    case Ignore => "_"
    case Nil => "Ω"
  }

  /** The forms that bind the name given as their first operand. */
  predicate IsBinder(k: Keyword)
  {
    k == Def || k == Lambda || k == External
  }

  /** No two keywords print the same way, so printed keywords can be told apart. */
  lemma SpellingInjective(a: Keyword, b: Keyword)
    requires a != b
    ensures Spelling(a) != Spelling(b)
  {
  }
}
