/**
 * `Card` of src/cards/card.rs: a card that is nothing but its text.  Equality, order and
 * the default are derived from the one `String` field; `Display` puts the text in
 * parentheses.
 */
module Cards {
  import Text

  datatype Card = Card(text: string)
  {
    /** The accessor `text()`. */
    function Text(): string
    {
      text
    }
  }

  /** `Card::new`: the card with the given text. */
  function New(text: string): (c: Card)
    ensures c.Text() == text
  {
    Card(text)
  }

  /** Cards with the same text are the same card. */
  lemma TextDeterminesCard(a: Card, b: Card)
    requires a.Text() == b.Text()
    ensures a == b
  {
  }

  /** The derived `Default`: the card with empty text. */
  function Default(): (c: Card)
    ensures c.Text() == ""
  {
    Card("")
  }

  /** `Display`: the text between parentheses. */
  function ToString(c: Card): (s: string)
    ensures |s| == |c.Text()| + 2
    ensures s[0] == '(' && s[|s| - 1] == ')' && s[1..|s| - 1] == c.Text()
  {
    "(" + c.text + ")"
  }

  /** Different cards are displayed differently. */
  lemma ToStringInjective(a: Card, b: Card)
    requires ToString(a) == ToString(b)
    ensures a == b
  {
    var s := ToString(a);
    assert a.Text() == s[1..|s| - 1] == b.Text();
  }

  /** The derived `Ord`: cards compare as their texts do. */
  function Less(a: Card, b: Card): (r: bool)
    ensures r <==> exists k: nat :: Text.DiffersAt(a.text, b.text, k)
  {
    Text.LexLessIff(a.text, b.text);
    Text.LexLess(a.text, b.text)
  }

  /** The derived order is a strict total order. */
  lemma LessIsTotalOrder(a: Card, b: Card, c: Card)
    ensures !Less(a, a)
    ensures Less(a, b) && Less(b, c) ==> Less(a, c)
    ensures a == b || Less(a, b) || Less(b, a)
    ensures !(Less(a, b) && Less(b, a))
  {
    Text.LexIrreflexive(a.text);
    if Less(a, b) && Less(b, c) {
      Text.LexTransitive(a.text, b.text, c.text);
    }
    Text.LexTotal(a.text, b.text);
  }
}
