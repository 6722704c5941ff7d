/** The form in which email addresses are stored. */
module EmailForm {
  import opened Text

  /** The lowercase-and-trim every writer applies to an email, for a given mapping of characters. */
  function Canonical(email: string, lower: char -> char): string {
    GoTrim(Fold(email, lower))
  }

  /** What is needed of the mapping: it is idempotent, and neither makes nor destroys white space. */
  ghost predicate LowersCharacters(lower: char -> char) {
    forall c :: lower(lower(c)) == lower(c) && (GoSpace(lower(c)) <==> GoSpace(c))
  }

  lemma {:induction false} TrimLeftOfFold(s: string, lower: char -> char)
    requires LowersCharacters(lower)
    ensures TrimLeft(Fold(s, lower), GoSpace) == Fold(TrimLeft(s, GoSpace), lower)
  {
    if s != "" {
      assert Fold(s, lower)[1..] == Fold(s[1..], lower);
      TrimLeftOfFold(s[1..], lower);
    }
  }

  lemma {:induction false} TrimRightOfFold(s: string, lower: char -> char)
    requires LowersCharacters(lower)
    ensures TrimRight(Fold(s, lower), GoSpace) == Fold(TrimRight(s, GoSpace), lower)
  {
    if s != "" {
      var last := |s| - 1;
      assert Fold(s, lower)[last] == lower(s[last]);
      assert Fold(s, lower)[..last] == Fold(s[..last], lower);
      TrimRightOfFold(s[..last], lower);
    }
  }

  lemma FoldIsIdempotent(s: string, lower: char -> char)
    requires LowersCharacters(lower)
    ensures Fold(Fold(s, lower), lower) == Fold(s, lower)
  {
    var l := Fold(s, lower);
    assert forall i :: 0 <= i < |s| ==> Fold(l, lower)[i] == lower(lower(s[i])) == l[i];
  }

  /** Lowercasing and trimming commute, so canonical form is a fixed point and non-blank input stays non-blank. */
  lemma CanonicalIsStable(s: string, lower: char -> char)
    requires LowersCharacters(lower)
    ensures Canonical(s, lower) == Fold(GoTrim(s), lower)
    ensures Canonical(Canonical(s, lower), lower) == Canonical(s, lower)
    ensures Canonical(s, lower) == "" <==> GoTrim(s) == ""
  {
    TrimLeftOfFold(s, lower);
    TrimRightOfFold(TrimLeft(s, GoSpace), lower);
    FoldIsIdempotent(GoTrim(s), lower);
    TrimIsIdentity(Canonical(s, lower), GoSpace);
  }

  // ----- what the account directory relies on -----

  /** The writers' canonical form and blank test, and the form in which the email lookup compares. */
  datatype Rules = Rules(canonical: string -> string, blank: string -> bool, compared: string -> string)

  ghost predicate Lawful(rules: Rules) {
    && (forall s :: rules.canonical(rules.canonical(s)) == rules.canonical(s))
    && (forall s :: rules.canonical(s) == "" <==> rules.blank(s))
  }

  /** The rules of the code, whatever the database's lower() does. */
  function CodeRules(lower: char -> char, compared: string -> string): Rules {
    Rules(s => Canonical(s, lower), s => GoTrim(s) == "", compared)
  }

  lemma CodeRulesAreLawful(lower: char -> char, compared: string -> string)
    requires LowersCharacters(lower)
    ensures Lawful(CodeRules(lower, compared))
  {
    var rules := CodeRules(lower, compared);
    forall s: string
      ensures rules.canonical(rules.canonical(s)) == rules.canonical(s)
      ensures rules.canonical(s) == "" <==> rules.blank(s)
    {
      CanonicalIsStable(s, lower);
    }
  }

  /** The mapping of ASCII letters qualifies. */
  lemma AsciiLowersCharacters()
    ensures LowersCharacters(LowerChar)
  {
  }
}
