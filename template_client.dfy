/** The image-key helper of the template client. */
module TemplateClient {
  import opened Wrappers
  import opened Strings
  import opened Cards
  import opened CardKeys

  /** `card_str_to_key`: lowercase the string and turn each space into `_`, with no guard. */
  function CardStrToKey(s: string): string {
    ReplaceChar(ToLower(s), ' ', '_')
  }

  /** The key keeps the length and has no space and no uppercase letter left. */
  lemma CardStrToKeySpec(s: string)
    ensures |CardStrToKey(s)| == |s|
    ensures forall i :: 0 <= i < |s| ==> CardStrToKey(s)[i] == if s[i] == ' ' then '_' else LowerChar(s[i])
    ensures IsKey(CardStrToKey(s))
  {
  }

  /** On non-empty strings it agrees with the main client's helper; the empty string maps to itself, where that helper gives None. */
  lemma AgreesWithDisplayNameKey(s: string)
    ensures s != [] ==> CardKeyFromDisplayName(Text(s)) == Some(CardStrToKey(s))
    ensures s == [] ==> CardStrToKey(s) == [] && CardKeyFromDisplayName(Text(s)) == None
  {
  }

  /** On a card's display string the key is `<rank>_of_<suit>`, lowercased. */
  lemma CardStrToKeyOfCard(c: Card)
    ensures CardStrToKey(CardString(c)) == KeyOfCard(c)
  {
    CardKeyOfCard(c);
  }

  /** The example in the function's comment. */
  lemma CardStrToKeyExample()
    ensures CardStrToKey("10 of clubs") == "10_of_clubs"
  {
    var k := CardStrToKey("10 of clubs");
    assert k[2] == '_' && k[5] == '_';
  }

  /** The same key for the display string of the ten of clubs. */
  lemma CardStrToKeyCardExample()
    ensures CardStrToKey(CardString(Card(Clubs, Ten))) == "10_of_clubs"
  {
    CardStrToKeyOfCard(Card(Clubs, Ten));
    assert ToLower("10") == "10";
    assert ToLower("Clubs") == "clubs";
  }
}
