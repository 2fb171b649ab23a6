/** The order of strings: code points compare as their UTF-8 bytes do. */
module StringOrder {
  import Lex

  function Code(c: char): int { c as int }

  /** strings.Compare(a, b) < 0 */
  predicate Less(a: string, b: string) { Lex.Less(a, b, Code) }

  lemma Asymmetric(a: string, b: string)
    requires Less(a, b)
    ensures !Less(b, a) && a != b
  {
    Lex.Asymmetric(a, b, Code);
  }

  lemma Transitive(a: string, b: string, c: string)
    requires Less(a, b) && Less(b, c)
    ensures Less(a, c)
  {
    Lex.Transitive(a, b, c, Code);
  }

  lemma Total(a: string, b: string)
    ensures Less(a, b) || a == b || Less(b, a)
  {
    Lex.Total(a, b, Code);
  }
}
