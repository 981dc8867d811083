/**
 * The two key derivations of the graphical client: a card's display string to the key of its
 * image, and an image file name to the key it is stored under. Both keys are lowercase, with
 * underscores where the display string has spaces, so the two meet for every card.
 */
module CardKeys {
  import opened Wrappers
  import opened Strings
  import opened Cards

  /** The argument of `get_card_key_from_display_name`: a string, or any value that is not one. */
  datatype DisplayName = Text(s: string) | NotText

  /** `get_card_key_from_display_name`: None for a non-string or an empty string. */
  function CardKeyFromDisplayName(name: DisplayName): Option<string> {
    match name
    case NotText => None
    case Text(s) => if s == [] then None else Some(ReplaceChar(ToLower(s), ' ', '_'))
  }

  /** A key character: nothing uppercase and no space. */
  predicate IsKey(k: string) {
    forall i :: 0 <= i < |k| ==> k[i] != ' ' && !IsUpper(k[i])
  }

  /** The rule of the function, position by position: lowercase, and `_` for each space. */
  lemma CardKeySpec(name: DisplayName)
    ensures CardKeyFromDisplayName(name).None? <==> name == NotText || name == Text([])
    ensures CardKeyFromDisplayName(name).Some? ==>
      var s, k := name.s, CardKeyFromDisplayName(name).value;
      && |k| == |s|
      && (forall i :: 0 <= i < |s| ==> k[i] == if s[i] == ' ' then '_' else LowerChar(s[i]))
      && IsKey(k)
  {
  }

  /** A key is its own key: the function is idempotent on what it returns. */
  lemma CardKeyIdempotent(name: DisplayName)
    requires CardKeyFromDisplayName(name).Some?
    ensures var k := CardKeyFromDisplayName(name).value;
      CardKeyFromDisplayName(Text(k)) == Some(k)
  {
    var k := CardKeyFromDisplayName(name).value;
    CardKeySpec(name);
    KeyFixed(k);
  }

  /** Lowercasing and replacing spaces leave a key unchanged. */
  lemma KeyFixed(k: string)
    requires IsKey(k)
    ensures ToLower(k) == k
    ensures ReplaceChar(ToLower(k), ' ', '_') == k
  {
  }

  /** Lowercasing and replacing spaces work piece by piece. */
  lemma SlugConcat(a: string, b: string)
    ensures ReplaceChar(ToLower(a + b), ' ', '_') == ReplaceChar(ToLower(a), ' ', '_') + ReplaceChar(ToLower(b), ' ', '_')
  {
    var l, r := ReplaceChar(ToLower(a + b), ' ', '_'), ReplaceChar(ToLower(a), ' ', '_') + ReplaceChar(ToLower(b), ' ', '_');
    assert |l| == |r|;
    forall i | 0 <= i < |l| ensures l[i] == r[i] {
      if i < |a| {
        assert (a + b)[i] == a[i];
      } else {
        assert (a + b)[i] == b[i - |a|];
      }
    }
  }

  /** Suit names have no spaces. */
  lemma SuitNameNoSpace(s: Suit)
    ensures ' ' !in SuitName(s)
  {
  }

  /** The key of one card: the lowercased rank and suit joined by `_of_`. */
  function KeyOfCard(c: Card): string {
    ToLower(RankName(c.rank)) + "_of_" + ToLower(SuitName(c.suit))
  }

  /** On a card's display string the function yields `<rank>_of_<suit>`, lowercased. */
  lemma CardKeyOfCard(c: Card)
    ensures CardKeyFromDisplayName(Text(CardString(c))) == Some(KeyOfCard(c))
    ensures IsKey(KeyOfCard(c))
  {
    var rk, st := RankName(c.rank), SuitName(c.suit);
    NamesParse(c);
    SuitNameNoSpace(c.suit);
    SlugConcat(rk + " of ", st);
    SlugConcat(rk, " of ");
    assert ReplaceChar(ToLower(rk), ' ', '_') == ToLower(rk);
    assert ReplaceChar(ToLower(st), ' ', '_') == ToLower(st);
    assert ReplaceChar(ToLower(" of "), ' ', '_') == "_of_";
    CardKeySpec(Text(CardString(c)));
  }

  /** The example in the function's comment. */
  lemma CardKeyExample()
    ensures CardKeyFromDisplayName(Text("10 of Hearts")) == Some("10_of_hearts")
  {
    CardKeyOfCard(Card(Hearts, Ten));
    TenOfHeartsNames();
  }

  /** The example in the function's documentation string. */
  lemma CardKeyDocExample()
    ensures CardKeyFromDisplayName(Text("Ace of Spades")) == Some("ace_of_spades")
  {
    CardKeyOfCard(Card(Spades, Ace));
    AceOfSpadesNames();
  }

  /** The display string and the key of the ten of hearts, spelled out. */
  lemma TenOfHeartsNames()
    ensures CardString(Card(Hearts, Ten)) == "10 of Hearts"
    ensures KeyOfCard(Card(Hearts, Ten)) == "10_of_hearts"
  {
    assert ToLower("10") == "10";
    assert ToLower("Hearts") == "hearts";
  }

  /** The display string and the key of the ace of spades, spelled out. */
  lemma AceOfSpadesNames()
    ensures CardString(Card(Spades, Ace)) == "Ace of Spades"
    ensures KeyOfCard(Card(Spades, Ace)) == "ace_of_spades"
  {
    assert ToLower("Ace") == "ace";
    assert ToLower("Spades") == "spades";
  }

  // ---------------------------------------------------------------- image file names

  predicate EndsWith(s: string, suffix: string) {
    |suffix| <= |s| && s[|s| - |suffix|..] == suffix
  }

  /**
   * The key `load_card_images` stores a file's image under: None for a file that is not a
   * `.png`; otherwise every `.png` is removed, `card_back` becomes `back`, and any other name
   * loses its trailing `2`s and is lowercased.
   */
  function ImageKeyFromFilename(filename: string): Option<string> {
    if !EndsWith(filename, ".png") then None
    else
      var namePart := ReplaceAll(filename, ".png", "");
      if namePart == "card_back" then Some("back")
      else Some(ToLower(RStrip(namePart, '2')))
  }

  /** The card back's file is stored under `back`. */
  lemma CardBackImageKey()
    ensures ImageKeyFromFilename("card_back.png") == Some("back")
  {
    ReplaceAllSuffix("card_back", ".png", "");
    assert "card_back" + ".png" == "card_back.png";
  }

  /** Both the plain and the `2` variant of a card's image file land on the key the client asks for. */
  lemma CardImageKeys(c: Card)
    ensures ImageKeyFromFilename(KeyOfCard(c) + ".png") == Some(KeyOfCard(c))
    ensures ImageKeyFromFilename(KeyOfCard(c) + "2" + ".png") == Some(KeyOfCard(c))
  {
    KeyChars(c);
    CardKeyOfCard(c);
    KeyFixed(KeyOfCard(c));
    KeyImageFiles(KeyOfCard(c));
  }

  /**
   * A name without `.`, other than `card_back`, that does not end in `2`: its plain and its `2`
   * file are both stored under the lowercased name.
   */
  lemma KeyImageFiles(k: string)
    requires '.' !in k && k != [] && k != "card_back" && k[|k| - 1] != '2'
    ensures ImageKeyFromFilename(k + ".png") == Some(ToLower(k))
    ensures ImageKeyFromFilename(k + "2" + ".png") == Some(ToLower(k))
  {
    StemKey(k, k);
    var stem := k + "2";
    assert stem[..|k|] == k && stem[|k|] == '2';
    assert '.' !in stem by {
      forall i | 0 <= i < |stem| ensures stem[i] != '.' {
        if i < |k| { assert stem[i] == k[i]; }
      }
    }
    assert stem[|stem| - 1] == '2' != "card_back"[8];
    StemKey(k, stem);
  }

  /**
   * A file `stem.png`, where the stem has no `.`, is not `card_back`, and is a name `k` not ending
   * in `2` followed by `2`s, is stored under `k` lowercased.
   */
  lemma StemKey(k: string, stem: string)
    requires '.' !in stem && stem != "card_back" && k != [] && k[|k| - 1] != '2'
    requires k <= stem && forall i :: |k| <= i < |stem| ==> stem[i] == '2'
    ensures ImageKeyFromFilename(stem + ".png") == Some(ToLower(k))
  {
    ReplaceAllSuffix(stem, ".png", "");
    assert (stem + ".png")[|stem + ".png"| - 4..] == ".png";
    assert stem + "" == stem;
    RStripKeeps(k, stem);
  }

  /** A file name with capitals: the stored key is stripped of its trailing `2` and lowercased. */
  lemma MixedCaseImageKey()
    ensures ImageKeyFromFilename("Jack_of_Clubs" + "2" + ".png") == Some("jack_of_clubs")
  {
    KeyImageFiles("Jack_of_Clubs");
    JackOfClubsLower();
  }

  /** The lowercasing used by the example above, one character at a time. */
  lemma JackOfClubsLower()
    ensures ToLower("Jack_of_Clubs") == "jack_of_clubs"
  {
  }

  /** Stripping `2`s from a key followed by `2`s gives the key back. */
  lemma {:induction false} RStripKeeps(k: string, stem: string)
    requires k != [] && k[|k| - 1] != '2'
    requires k <= stem && forall i :: |k| <= i < |stem| ==> stem[i] == '2'
    ensures RStrip(stem, '2') == k
    decreases |stem|
  {
    if |stem| > |k| {
      assert k <= stem[..|stem| - 1];
      RStripKeeps(k, stem[..|stem| - 1]);
    } else {
      assert stem == k;
    }
  }

  /** A card's key has no `.`, is not `card_back` and does not end in `2`: it ends in a suit's `s`. */
  lemma KeyChars(c: Card)
    ensures '.' !in KeyOfCard(c)
    ensures KeyOfCard(c) != [] && KeyOfCard(c) != "card_back"
    ensures KeyOfCard(c)[|KeyOfCard(c)| - 1] != '2'
  {
    var rk, st := ToLower(RankName(c.rank)), ToLower(SuitName(c.suit));
    assert |st| >= 5 && st[|st| - 1] == 's';
    assert '.' !in rk && '.' !in st;
    assert KeyOfCard(c)[|KeyOfCard(c)| - 1] == st[|st| - 1];
  }
}
