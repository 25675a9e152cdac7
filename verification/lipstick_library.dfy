/** The brand catalogue: `LIPSTICK_COLORS` (brand → shade → RGB) and
    `DEFAULT_TEXTURES` (brand → shade → texture name), both insertion-ordered
    Python dictionaries, modelled as association lists in source order. */
module LipstickLibrary {
  import opened Basics

  datatype Colour = Colour(r: int, g: int, b: int)

  /** An insertion-ordered dictionary with string keys. */
  type Table<V> = seq<(string, V)>

  function Keys<V>(t: Table<V>): (ks: seq<string>)
    ensures |ks| == |t|
    ensures forall i :: 0 <= i < |t| ==> ks[i] == t[i].0
  {
    if |t| == 0 then [] else [t[0].0] + Keys(t[1..])
  }

  /** The value stored under `key`. */
  function Lookup<V>(t: Table<V>, key: string): (v: Option<V>)
    ensures v.None? <==> key !in Keys(t)
    ensures v.Some? ==> exists i :: 0 <= i < |t| && t[i] == (key, v.value)
  {
    if |t| == 0 then None
    else if t[0].0 == key then Some(t[0].1)
    else
      var v := Lookup(t[1..], key);
      assert v.Some? ==> exists i :: 0 <= i < |t[1..]| && t[1..][i] == (key, v.value);
      assert v.Some? ==> exists i :: 0 <= i < |t| && t[i] == (key, v.value) by {
        if v.Some? {
          var i :| 0 <= i < |t[1..]| && t[1..][i] == (key, v.value);
          assert t[i + 1] == (key, v.value);
        }
      }
      v
  }

  predicate DistinctKeys<V>(t: Table<V>) {
    forall i, j :: 0 <= i < j < |t| ==> t[i].0 != t[j].0
  }

  /** In a table without repeated keys, the lookup finds the value stored
      under the key, as a dictionary does. */
  lemma {:induction false} LookupFindsEntry<V>(t: Table<V>, i: nat)
    requires DistinctKeys(t) && i < |t|
    ensures Lookup(t, t[i].0) == Some(t[i].1)
  {
    if i > 0 {
      assert t[1..][i - 1] == t[i];
      LookupFindsEntry(t[1..], i - 1);
    }
  }

  /** `LIPSTICK_COLORS`. */
  function Colours(): Table<Table<Colour>> {
    [ ("MAC", MacColours()),
      ("YSL", YslColours()),
      ("DIOR", DiorColours()),
      ("CHANEL", ChanelColours()),
      ("NARS", NarsColours()),
      ("3CE", ThreeCeColours()),
      ("Charlotte Tilbury", CharlotteTilburyColours()),
      ("Armani", ArmaniColours()) ]
  }

  /** `DEFAULT_TEXTURES`. */
  function Textures(): Table<Table<string>> {
    [ ("MAC", MacTextures()),
      ("YSL", YslTextures()),
      ("DIOR", DiorTextures()),
      ("CHANEL", ChanelTextures()),
      ("NARS", NarsTextures()),
      ("3CE", ThreeCeTextures()),
      ("Charlotte Tilbury", CharlotteTilburyTextures()),
      ("Armani", ArmaniTextures()) ]
  }

  // One brand's shades in each table.

  function MacColours(): Table<Colour> {
    [ ("Ruby Woo", Colour(185, 25, 25)),
      ("Chili", Colour(180, 50, 35)),
      ("Velvet Teddy", Colour(174, 108, 108)),
      ("Diva", Colour(130, 35, 35)),
      ("Lady Danger", Colour(228, 50, 30)),
      ("Russian Red", Colour(190, 30, 30)),
      ("Mehr", Colour(180, 100, 120)) ]
  }

  function MacTextures(): Table<string> {
    [ ("Ruby Woo", "matte"),
      ("Chili", "matte"),
      ("Velvet Teddy", "matte"),
      ("Diva", "matte"),
      ("Lady Danger", "matte"),
      ("Russian Red", "matte"),
      ("Mehr", "matte") ]
  }

  function YslColours(): Table<Colour> {
    [ ("Rouge Pur", Colour(170, 20, 60)),
      ("Le Rouge", Colour(190, 25, 45)),
      ("Rouge Volupté", Colour(200, 40, 80)),
      ("Tatouage Couture", Colour(185, 35, 55)),
      ("Rouge Volupté Shine", Colour(210, 50, 90)),
      ("Rouge Pur Couture", Colour(195, 30, 50)) ]
  }

  function YslTextures(): Table<string> {
    [ ("Rouge Pur", "matte"),
      ("Le Rouge", "matte"),
      ("Rouge Volupté", "gloss"),
      ("Tatouage Couture", "matte"),
      ("Rouge Volupté Shine", "gloss"),
      ("Rouge Pur Couture", "velvet") ]
  }

  function DiorColours(): Table<Colour> {
    [ ("999 Iconic Red", Colour(205, 20, 40)),
      ("Rouge Trafalgar", Colour(215, 35, 45)),
      ("Forever Pink", Colour(230, 130, 150)),
      ("Rosewood", Colour(175, 95, 95)),
      ("Forever Nude", Colour(200, 140, 130)),
      ("Rouge Graphist", Colour(190, 40, 60)) ]
  }

  function DiorTextures(): Table<string> {
    [ ("999 Iconic Red", "matte"),
      ("Rouge Trafalgar", "matte"),
      ("Forever Pink", "gloss"),
      ("Rosewood", "velvet"),
      ("Forever Nude", "gloss"),
      ("Rouge Graphist", "matte") ]
  }

  function ChanelColours(): Table<Colour> {
    [ ("Pirate", Colour(195, 25, 35)),
      ("Rouge Allure", Colour(185, 30, 45)),
      ("Camelia", Colour(210, 90, 100)),
      ("Rouge Coco", Colour(180, 35, 50)),
      ("Rouge Noir", Colour(90, 20, 25)),
      ("Boy", Colour(170, 110, 110)) ]
  }

  function ChanelTextures(): Table<string> {
    [ ("Pirate", "velvet"),
      ("Rouge Allure", "velvet"),
      ("Camelia", "gloss"),
      ("Rouge Coco", "velvet"),
      ("Rouge Noir", "matte"),
      ("Boy", "velvet") ]
  }

  function NarsColours(): Table<Colour> {
    [ ("Dragon Girl", Colour(200, 35, 35)),
      ("Heat Wave", Colour(230, 60, 40)),
      ("Dolce Vita", Colour(170, 85, 90)),
      ("Cruella", Colour(180, 30, 40)),
      ("Red Square", Colour(210, 45, 35)),
      ("Jungle Red", Colour(195, 40, 45)) ]
  }

  function NarsTextures(): Table<string> {
    [ ("Dragon Girl", "matte"),
      ("Heat Wave", "matte"),
      ("Dolce Vita", "velvet"),
      ("Cruella", "matte"),
      ("Red Square", "matte"),
      ("Jungle Red", "matte") ]
  }

  function ThreeCeColours(): Table<Colour> {
    [ ("Taupe", Colour(150, 90, 90)),
      ("Pink Run", Colour(220, 120, 130)),
      ("Mellow Flower", Colour(200, 100, 110)),
      ("Brunch Time", Colour(190, 110, 100)),
      ("Null Set", Colour(180, 95, 85)),
      ("Simple Stay", Colour(170, 80, 80)) ]
  }

  function ThreeCeTextures(): Table<string> {
    [ ("Taupe", "matte"),
      ("Pink Run", "matte"),
      ("Mellow Flower", "velvet"),
      ("Brunch Time", "matte"),
      ("Null Set", "matte"),
      ("Simple Stay", "velvet") ]
  }

  function CharlotteTilburyColours(): Table<Colour> {
    [ ("Pillow Talk", Colour(190, 120, 120)),
      ("Walk of Shame", Colour(180, 70, 80)),
      ("Red Carpet Red", Colour(200, 30, 40)),
      ("Bond Girl", Colour(160, 80, 85)),
      ("Very Victoria", Colour(165, 105, 95)),
      ("Amazing Grace", Colour(210, 110, 120)) ]
  }

  function CharlotteTilburyTextures(): Table<string> {
    [ ("Pillow Talk", "matte"),
      ("Walk of Shame", "matte"),
      ("Red Carpet Red", "matte"),
      ("Bond Girl", "matte"),
      ("Very Victoria", "matte"),
      ("Amazing Grace", "gloss") ]
  }

  function ArmaniColours(): Table<Colour> {
    [ ("Red 400", Colour(195, 25, 35)),
      ("Pink 500", Colour(220, 100, 120)),
      ("Beige 100", Colour(190, 130, 120)),
      ("Plum 200", Colour(150, 60, 70)),
      ("Coral 300", Colour(230, 90, 80)),
      ("Mauve 600", Colour(170, 90, 100)) ]
  }

  function ArmaniTextures(): Table<string> {
    [ ("Red 400", "velvet"),
      ("Pink 500", "gloss"),
      ("Beige 100", "gloss"),
      ("Plum 200", "velvet"),
      ("Coral 300", "gloss"),
      ("Mauve 600", "velvet") ]
  }

  // ---------------------------------------------------------------------------
  // Facts about the two tables

  /** Two tables with the same keys in the same order. */
  predicate SameKeys<A, B>(s: Table<A>, t: Table<B>) {
    |s| == |t| && forall j :: 0 <= j < |s| ==> s[j].0 == t[j].0
  }

  predicate KnownTexture(name: string) {
    name == "matte" || name == "gloss" || name == "velvet"
  }

  predicate IsColour(c: Colour) {
    IsByte(c.r) && IsByte(c.g) && IsByte(c.b)
  }

  /** In two tables with the same keys and no repeated key, a key is found in
      both or in neither, and at the same position. */
  lemma ParallelLookup<A, B>(s: Table<A>, t: Table<B>, key: string)
    requires SameKeys(s, t) && DistinctKeys(s)
    ensures Lookup(s, key).Some? <==> Lookup(t, key).Some?
    ensures Lookup(s, key).Some? ==>
              exists i :: 0 <= i < |s| && Lookup(s, key) == Some(s[i].1) && Lookup(t, key) == Some(t[i].1)
  {
    assert Keys(s) == Keys(t);
    if Lookup(s, key).Some? {
      var i :| 0 <= i < |s| && s[i] == (key, Lookup(s, key).value);
      LookupFindsEntry(s, i);
      LookupFindsEntry(t, i);
    }
  }

  /** One brand's two shade tables: the same shades in the same order, none
      listed twice, each colour an 8-bit RGB triple and each texture one the
      renderer knows. */
  predicate BrandWellFormed(colours: Table<Colour>, textures: Table<string>) {
    && |colours| > 0
    && SameKeys(colours, textures)
    && DistinctKeys(colours)
    && (forall j :: 0 <= j < |colours| ==> IsColour(colours[j].1))
    && (forall j :: 0 <= j < |textures| ==> KnownTexture(textures[j].1))
  }

  /** Every brand's shade tables are well formed. */
  lemma BrandWellFormedAt(i: nat)
    requires i < |Colours()|
    ensures |Colours()| == |Textures()| && BrandWellFormed(Colours()[i].1, Textures()[i].1)
  {
    if i == 0 {
      MacWellFormed();
    } else if i == 1 {
      YslWellFormed();
    } else if i == 2 {
      DiorWellFormed();
    } else if i == 3 {
      ChanelWellFormed();
    } else if i == 4 {
      NarsWellFormed();
    } else if i == 5 {
      ThreeCeWellFormed();
    } else if i == 6 {
      CharlotteTilburyWellFormed();
    } else if i == 7 {
      ArmaniWellFormed();
    }
  }

  lemma MacWellFormed()
    ensures BrandWellFormed(MacColours(), MacTextures())
  {
    MacShadesAgree();
    MacShadesDistinct();
    MacColoursInRange();
    MacTexturesKnown();
  }

  lemma MacShadesAgree()
    ensures SameKeys(MacColours(), MacTextures())
  {
  }

  lemma MacShadesDistinct()
    ensures DistinctKeys(MacColours())
  {
  }

  lemma MacColoursInRange()
    ensures forall j :: 0 <= j < |MacColours()| ==> IsColour(MacColours()[j].1)
  {
  }

  lemma MacTexturesKnown()
    ensures forall j :: 0 <= j < |MacTextures()| ==> KnownTexture(MacTextures()[j].1)
  {
  }

  lemma YslWellFormed()
    ensures BrandWellFormed(YslColours(), YslTextures())
  {
    YslShadesAgree();
    YslShadesDistinct();
    YslColoursInRange();
    YslTexturesKnown();
  }

  lemma YslShadesAgree()
    ensures SameKeys(YslColours(), YslTextures())
  {
  }

  lemma YslShadesDistinct()
    ensures DistinctKeys(YslColours())
  {
  }

  lemma YslColoursInRange()
    ensures forall j :: 0 <= j < |YslColours()| ==> IsColour(YslColours()[j].1)
  {
  }

  lemma YslTexturesKnown()
    ensures forall j :: 0 <= j < |YslTextures()| ==> KnownTexture(YslTextures()[j].1)
  {
  }

  lemma DiorWellFormed()
    ensures BrandWellFormed(DiorColours(), DiorTextures())
  {
    DiorShadesAgree();
    DiorShadesDistinct();
    DiorColoursInRange();
    DiorTexturesKnown();
  }

  lemma DiorShadesAgree()
    ensures SameKeys(DiorColours(), DiorTextures())
  {
  }

  lemma DiorShadesDistinct()
    ensures DistinctKeys(DiorColours())
  {
  }

  lemma DiorColoursInRange()
    ensures forall j :: 0 <= j < |DiorColours()| ==> IsColour(DiorColours()[j].1)
  {
  }

  lemma DiorTexturesKnown()
    ensures forall j :: 0 <= j < |DiorTextures()| ==> KnownTexture(DiorTextures()[j].1)
  {
  }

  lemma ChanelWellFormed()
    ensures BrandWellFormed(ChanelColours(), ChanelTextures())
  {
    ChanelShadesAgree();
    ChanelShadesDistinct();
    ChanelColoursInRange();
    ChanelTexturesKnown();
  }

  lemma ChanelShadesAgree()
    ensures SameKeys(ChanelColours(), ChanelTextures())
  {
  }

  lemma ChanelShadesDistinct()
    ensures DistinctKeys(ChanelColours())
  {
  }

  lemma ChanelColoursInRange()
    ensures forall j :: 0 <= j < |ChanelColours()| ==> IsColour(ChanelColours()[j].1)
  {
  }

  lemma ChanelTexturesKnown()
    ensures forall j :: 0 <= j < |ChanelTextures()| ==> KnownTexture(ChanelTextures()[j].1)
  {
  }

  lemma NarsWellFormed()
    ensures BrandWellFormed(NarsColours(), NarsTextures())
  {
    NarsShadesAgree();
    NarsShadesDistinct();
    NarsColoursInRange();
    NarsTexturesKnown();
  }

  lemma NarsShadesAgree()
    ensures SameKeys(NarsColours(), NarsTextures())
  {
  }

  lemma NarsShadesDistinct()
    ensures DistinctKeys(NarsColours())
  {
  }

  lemma NarsColoursInRange()
    ensures forall j :: 0 <= j < |NarsColours()| ==> IsColour(NarsColours()[j].1)
  {
  }

  lemma NarsTexturesKnown()
    ensures forall j :: 0 <= j < |NarsTextures()| ==> KnownTexture(NarsTextures()[j].1)
  {
  }

  lemma ThreeCeWellFormed()
    ensures BrandWellFormed(ThreeCeColours(), ThreeCeTextures())
  {
    ThreeCeShadesAgree();
    ThreeCeShadesDistinct();
    ThreeCeColoursInRange();
    ThreeCeTexturesKnown();
  }

  lemma ThreeCeShadesAgree()
    ensures SameKeys(ThreeCeColours(), ThreeCeTextures())
  {
  }

  lemma ThreeCeShadesDistinct()
    ensures DistinctKeys(ThreeCeColours())
  {
  }

  lemma ThreeCeColoursInRange()
    ensures forall j :: 0 <= j < |ThreeCeColours()| ==> IsColour(ThreeCeColours()[j].1)
  {
  }

  lemma ThreeCeTexturesKnown()
    ensures forall j :: 0 <= j < |ThreeCeTextures()| ==> KnownTexture(ThreeCeTextures()[j].1)
  {
  }

  lemma CharlotteTilburyWellFormed()
    ensures BrandWellFormed(CharlotteTilburyColours(), CharlotteTilburyTextures())
  {
    CharlotteTilburyShadesAgree();
    CharlotteTilburyShadesDistinct();
    CharlotteTilburyColoursInRange();
    CharlotteTilburyTexturesKnown();
  }

  lemma CharlotteTilburyShadesAgree()
    ensures SameKeys(CharlotteTilburyColours(), CharlotteTilburyTextures())
  {
  }

  lemma CharlotteTilburyShadesDistinct()
    ensures DistinctKeys(CharlotteTilburyColours())
  {
  }

  lemma CharlotteTilburyColoursInRange()
    ensures forall j :: 0 <= j < |CharlotteTilburyColours()| ==> IsColour(CharlotteTilburyColours()[j].1)
  {
  }

  lemma CharlotteTilburyTexturesKnown()
    ensures forall j :: 0 <= j < |CharlotteTilburyTextures()| ==> KnownTexture(CharlotteTilburyTextures()[j].1)
  {
  }

  lemma ArmaniWellFormed()
    ensures BrandWellFormed(ArmaniColours(), ArmaniTextures())
  {
    ArmaniShadesAgree();
    ArmaniShadesDistinct();
    ArmaniColoursInRange();
    ArmaniTexturesKnown();
  }

  lemma ArmaniShadesAgree()
    ensures SameKeys(ArmaniColours(), ArmaniTextures())
  {
  }

  lemma ArmaniShadesDistinct()
    ensures DistinctKeys(ArmaniColours())
  {
  }

  lemma ArmaniColoursInRange()
    ensures forall j :: 0 <= j < |ArmaniColours()| ==> IsColour(ArmaniColours()[j].1)
  {
  }

  lemma ArmaniTexturesKnown()
    ensures forall j :: 0 <= j < |ArmaniTextures()| ==> KnownTexture(ArmaniTextures()[j].1)
  {
  }

  /** The brand level: both tables list the same eight brands, none twice. */
  lemma BrandsAgree()
    ensures SameKeys(Colours(), Textures()) && DistinctKeys(Colours()) && |Colours()| == 8
  {
  }

  /** The value a two-level table stores under `brand`, then `name`. */
  function Find<V>(cat: Table<Table<V>>, brand: string, name: string): Option<V> {
    match Lookup(cat, brand)
    case None => None
    case Some(shades) => Lookup(shades, name)
  }

  /** In a two-level table without repeated keys, the names at a position
      find that position's value. */
  lemma FindAt<V>(cat: Table<Table<V>>, i: nat, j: nat)
    requires NoRepeats(cat) && i < |cat| && j < |cat[i].1|
    ensures Find(cat, cat[i].0, cat[i].1[j].0) == Some(cat[i].1[j].1)
  {
    LookupFindsEntry(cat, i);
    LookupFindsEntry(cat[i].1, j);
  }

  /** Every value `Find` returns sits at a position carrying those names. */
  lemma FindIsAnEntry<V>(cat: Table<Table<V>>, brand: string, name: string)
    requires Find(cat, brand, name).Some?
    ensures exists i, j :: 0 <= i < |cat| && 0 <= j < |cat[i].1| &&
              cat[i].0 == brand && cat[i].1[j] == (name, Find(cat, brand, name).value)
  {
    var shades := Lookup(cat, brand).value;
    var i :| 0 <= i < |cat| && cat[i] == (brand, shades);
    var j :| 0 <= j < |shades| && shades[j] == (name, Lookup(shades, name).value);
    assert cat[i].1[j] == (name, Find(cat, brand, name).value);
  }

  /** Every position of `cat` carrying the names `brand` and `name` holds `v`. */
  predicate StoredUnder<V(==)>(cat: Table<Table<V>>, brand: string, name: string, v: V) {
    forall i, j :: 0 <= i < |cat| && 0 <= j < |cat[i].1| && cat[i].0 == brand && cat[i].1[j].0 == name ==>
      cat[i].1[j].1 == v
  }

  /** Without repeated names, what `Find` returns is the value stored under
      those names. */
  lemma FindStored<V>(cat: Table<Table<V>>, brand: string, name: string)
    requires NoRepeats(cat) && Find(cat, brand, name).Some?
    ensures StoredUnder(cat, brand, name, Find(cat, brand, name).value)
  {
    forall i, j | 0 <= i < |cat| && 0 <= j < |cat[i].1| && cat[i].0 == brand && cat[i].1[j].0 == name
      ensures cat[i].1[j].1 == Find(cat, brand, name).value
    {
      FindAt(cat, i, j);
    }
  }

  predicate NoRepeats<V>(cat: Table<Table<V>>) {
    DistinctKeys(cat) && forall i :: 0 <= i < |cat| ==> DistinctKeys(cat[i].1)
  }

  /** Neither level of the colour catalogue repeats a key. */
  lemma CatalogueHasNoRepeats()
    ensures NoRepeats(Colours())
  {
    BrandsAgree();
    forall i | 0 <= i < |Colours()|
      ensures DistinctKeys(Colours()[i].1)
    {
      BrandWellFormedAt(i);
    }
  }

  /** Neither level of the texture catalogue repeats a key. */
  lemma TexturesHaveNoRepeats()
    ensures NoRepeats(Textures())
  {
    BrandsAgree();
    assert DistinctKeys(Textures());
    forall i | 0 <= i < |Textures()|
      ensures DistinctKeys(Textures()[i].1)
    {
      BrandWellFormedAt(i);
    }
  }

  // ---------------------------------------------------------------------------
  // The lookup functions

  /** `get_all_brands`: the brands in catalogue order. */
  function AllBrands(): (brands: seq<string>)
    ensures |brands| == |Colours()|
    ensures forall i :: 0 <= i < |brands| ==> brands[i] == Colours()[i].0
    ensures forall b :: b in brands <==> Lookup(Colours(), b).Some?
  {
    Keys(Colours())
  }

  /** `get_colors_for_brand`: the brand's shade names in catalogue order, or
      the empty list for an unknown brand. */
  function ColorsForBrand(brand: string): (names: seq<string>)
    ensures brand !in AllBrands() ==> names == []
    ensures brand in AllBrands() ==> |names| > 0
    ensures forall name :: name in names <==>
              Lookup(Colours(), brand).Some? && Lookup(Lookup(Colours(), brand).value, name).Some?
    ensures Lookup(Colours(), brand).Some? ==>
              |names| == |Lookup(Colours(), brand).value| &&
              forall i :: 0 <= i < |names| ==> names[i] == Lookup(Colours(), brand).value[i].0
  {
    match Lookup(Colours(), brand)
    case None => []
    case Some(shades) =>
      ListedBrandHasShades(brand);
      Keys(shades)
  }

  /** `get_color_rgb`: the colour of a listed shade, `None` otherwise. */
  function ColorRgb(brand: string, name: string): (c: Option<Colour>)
    ensures c.Some? <==> name in ColorsForBrand(brand)
    ensures c.Some? ==> IsColour(c.value)
    ensures c.Some? ==> StoredUnder(Colours(), brand, name, c.value)
  {
    var v := Find(Colours(), brand, name);
    if v.Some? then
      ListedColourInRange(brand, name);
      CatalogueHasNoRepeats();
      FindStored(Colours(), brand, name);
      v
    else v
  }

  /** `get_texture`: the listed texture, or "matte" when the texture table
      has no entry. */
  function Texture(brand: string, name: string): (t: string)
    ensures KnownTexture(t)
    ensures Find(Textures(), brand, name).Some? ==> StoredUnder(Textures(), brand, name, t)
    ensures Find(Textures(), brand, name).None? ==> t == "matte"
  {
    var v := Find(Textures(), brand, name);
    if v.Some? then
      ListedTextureKnown(brand, name);
      TexturesHaveNoRepeats();
      FindStored(Textures(), brand, name);
      v.value
    else "matte"
  }

  lemma ListedBrandHasShades(brand: string)
    requires Lookup(Colours(), brand).Some?
    ensures |Lookup(Colours(), brand).value| > 0
  {
    var i :| 0 <= i < |Colours()| && Colours()[i] == (brand, Lookup(Colours(), brand).value);
    BrandWellFormedAt(i);
  }

  lemma ListedColourInRange(brand: string, name: string)
    requires Find(Colours(), brand, name).Some?
    ensures IsColour(Find(Colours(), brand, name).value)
  {
    FindIsAnEntry(Colours(), brand, name);
    var i, j :| 0 <= i < |Colours()| && 0 <= j < |Colours()[i].1| &&
                Colours()[i].0 == brand && Colours()[i].1[j] == (name, Find(Colours(), brand, name).value);
    BrandWellFormedAt(i);
  }

  lemma ListedTextureKnown(brand: string, name: string)
    requires Find(Textures(), brand, name).Some?
    ensures KnownTexture(Find(Textures(), brand, name).value)
  {
    FindIsAnEntry(Textures(), brand, name);
    var i, j :| 0 <= i < |Textures()| && 0 <= j < |Textures()[i].1| &&
                Textures()[i].0 == brand && Textures()[i].1[j] == (name, Find(Textures(), brand, name).value);
    BrandsAgree();
    BrandWellFormedAt(i);
  }

  /** A shade has a colour exactly when it has a listed texture, so the
      "matte" default is taken only for shades the catalogue does not list. */
  lemma TextureListedIffColourListed(brand: string, name: string)
    ensures ColorRgb(brand, name).Some? <==>
              Lookup(Textures(), brand).Some? && Lookup(Lookup(Textures(), brand).value, name).Some?
    ensures ColorRgb(brand, name).None? ==> Texture(brand, name) == "matte"
  {
    BrandsAgree();
    ParallelLookup(Colours(), Textures(), brand);
    if Lookup(Colours(), brand).Some? {
      var i :| 0 <= i < |Colours()| && Lookup(Colours(), brand) == Some(Colours()[i].1) &&
               Lookup(Textures(), brand) == Some(Textures()[i].1);
      BrandWellFormedAt(i);
      ParallelLookup(Colours()[i].1, Textures()[i].1, name);
    }
  }
}
