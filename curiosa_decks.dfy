/**
 * The built-in catalogue of Curiosa deck URLs: two preconstructed tables and
 * four tables keyed by avatar or archetype, grouped by the number of elements
 * a deck plays. A table value is one URL or a set of URLs.
 */
module CuriosaDecks {
  import opened Wrappers

  /**
   * A table value: one URL, a set of URLs (kept whole when flattened), or a
   * keyed map of URLs, of which flattening keeps the keys in order. No constant
   * table below holds a map; the case is here because the flatteners test for it.
   */
  datatype DeckEntry = Url(url: string) | UrlSet(urls: set<string>) | UrlMap(keys: seq<string>)

  /** A table in insertion order: (key, value) pairs. */
  type Table = seq<(string, DeckEntry)>

  const PRECON_ALPHA: Table := [
    ("avatar_air", Url("https://curiosa.io/precons/clso3l1mg001q2w08qv1nexky")),
    ("avatar_water", Url("https://curiosa.io/precons/clso3lffd006jhb60hiwpltyc")),
    ("avatar_fire", Url("https://curiosa.io/precons/clso3l8ph005ihb60cxkus6mh")),
    ("avatar_earth", Url("https://curiosa.io/precons/clso3lngx007lhb600v843gd7"))
  ]

  const PRECON_BETA: Table := [
    ("sparkmage", Url("https://curiosa.io/precons/clczbmbxb008av5ugml35rdwt")),
    ("waveshaper", Url("https://curiosa.io/precons/clczbmbxb008ev5ugiovmxcw1")),
    ("flamecaller", Url("https://curiosa.io/precons/clczbmbxb0085v5ug7eyxn2dk")),
    ("geomancer", Url("https://curiosa.io/precons/clczbmbxb008hv5uggpws66fe"))
  ]

  const SINGLE_ELEMENT: Table := [
    ("avatar_air", UrlSet({"https://curiosa.io/decks/clur4vvfi007393mb1jeks49q",
                           "https://curiosa.io/decks/cm7h1bo280003jy03d6h9vjdk"})),
    ("avatar_earth", Url("https://curiosa.io/decks/clf3gywls001xjs0fq0oymxrw")),
    ("avatar_fire", Url("https://curiosa.io/decks/clllgewcb000al70f1trl23nj")),
    ("avatar_water", Url("https://curiosa.io/decks/clkta1lm80016ml0fx7j5g85z")),
    ("flamecaller", Url("https://curiosa.io/decks/clp4lhy3k000ml40f7tz4kzt9")),
    ("geomancer", Url("https://curiosa.io/decks/clq0g9545005v18uw6wys5j7s")),
    ("sparkmage", Url("https://curiosa.io/decks/cloneejb7003al80fj99t5zse")),
    ("spellslinger", Url("https://curiosa.io/decks/clzyaqvk200f69z9318843mvj")),
    ("waveshaper", Url("https://curiosa.io/decks/cm778jggb0004la031y4lihll"))
  ]

  const DOUBLE_ELEMENT: Table := [
    ("archimago", Url("https://curiosa.io/decks/cm5gwcht600cajv03o66g813t")),
    ("battlemage", UrlSet({"https://curiosa.io/decks/clczbmbxk00l5v5ug8fszmefg",
                           "https://curiosa.io/decks/clvotbl1x000hdr85httnltx9"})),
    ("deathspeaker", Url("https://curiosa.io/decks/clczbmbxm00osv5ug2r4pyidz")),
    ("druid", Url("https://curiosa.io/decks/cm6idlshk003jl803y6gvrshg")),
    ("enchantress", Url("https://curiosa.io/decks/clsmmlhou001z11pizfcx1ika")),
    ("pathfinder", Url("https://curiosa.io/decks/clfu91ick0000mo0f2o0ydeo2")),
    ("seer", Url("https://curiosa.io/decks/cltwmj6vp0040ydfaz3qodjgd")),
    ("sorcerer", Url("https://curiosa.io/decks/clrno48s50029nptuqqoxyioa")),
    ("spellslinger", Url("https://curiosa.io/decks/cm1zd8c0h006ezuaazqvybyiu")),
    ("witch", Url("https://curiosa.io/decks/cm2biop6z00006htx57qzp8fm"))
  ]

  const TRIPLE_ELEMENT: Table := [
    ("archimago", Url("https://curiosa.io/decks/cm36h7lls005ltupl99xqsoj0")),
    ("deathspeaker", Url("https://curiosa.io/decks/cm6ksu9us00m0lb03jr9ft22q")),
    ("enchantress", UrlSet({"https://curiosa.io/decks/clf7hjfxc002lmk0gy6nyzgl9",
                            "https://curiosa.io/decks/cm7e9p2x80002jr03v9v2d7pg"})),
    ("seer", Url("https://curiosa.io/decks/cm8m6vbdu002tie03di2cqd8g"))
  ]

  const QUADRUPLE_ELEMENT: Table := [
    ("elementalist", UrlSet({"https://curiosa.io/decks/clp2hendb007ol70ffaln2e5x",
                             "https://curiosa.io/decks/cmamc8l5r008jih047su6gbtf"})),
    ("templar", Url("https://curiosa.io/decks/cm29j1szy0030j0oagg8ujs0t"))
  ]

  /** A key of one of the four tables keyed by avatar. */
  predicate IsElementKey(name: string) {
    HasKey(SINGLE_ELEMENT, name) || HasKey(DOUBLE_ELEMENT, name) || HasKey(TRIPLE_ELEMENT, name) || HasKey(QUADRUPLE_ELEMENT, name)
  }

  // ---------------------------------------------------------------------------
  // Table queries

  /** The values of a table, in insertion order. */
  function Values(t: Table): (r: seq<DeckEntry>)
    ensures |r| == |t| && forall k :: 0 <= k < |t| ==> r[k] == t[k].1
  {
    seq(|t|, k requires 0 <= k < |t| => t[k].1)
  }

  predicate HasKey(t: Table, key: string) {
    exists k :: 0 <= k < |t| && t[k].0 == key
  }

  /** The value stored under `key`: the first entry with that key. */
  function Lookup(t: Table, key: string): (r: Option<DeckEntry>)
    ensures r.Some? <==> HasKey(t, key)
    ensures r.Some? ==> exists k :: 0 <= k < |t| && t[k] == (key, r.value)
  {
    if t == [] then None
    else if t[0].0 == key then Some(t[0].1)
    else
      var r := Lookup(t[1..], key);
      assert forall k :: 0 < k < |t| ==> t[k] == t[1..][k - 1];
      assert HasKey(t[1..], key) ==> HasKey(t, key);
      r
  }

  /** What one value adds to a URL list: a map's keys one by one, anything else as one element. */
  function Spread(v: DeckEntry): (r: seq<DeckEntry>)
    ensures !v.UrlMap? ==> r == [v]
    ensures v.UrlMap? ==> |r| == |v.keys| && forall k :: 0 <= k < |r| ==> r[k] == Url(v.keys[k])
  {
    match v
    case UrlMap(keys) => seq(|keys|, k requires 0 <= k < |keys| => Url(keys[k]))
    case _ => [v]
  }

  /** Every value of a table spread out, in insertion order. */
  function Flattened(t: Table): seq<DeckEntry> {
    if t == [] then [] else Flattened(t[..|t| - 1]) + Spread(t[|t| - 1].1)
  }

  predicate HasNoMaps(t: Table) {
    forall k :: 0 <= k < |t| ==> !t[k].1.UrlMap?
  }

  /** A table without map values flattens to exactly its values: one element per entry. */
  lemma {:induction false} FlattenedWithoutMaps(t: Table)
    requires HasNoMaps(t)
    ensures Flattened(t) == Values(t)
  {
    if t != [] {
      FlattenedWithoutMaps(t[..|t| - 1]);
      assert Values(t) == Values(t[..|t| - 1]) + [t[|t| - 1].1];
    }
  }

  /** Whatever a table's value under `key` spreads to is part of the flattened table. */
  lemma {:induction false} LookupWithinFlattened(t: Table, key: string)
    requires Lookup(t, key).Some?
    ensures forall e | e in Spread(Lookup(t, key).value) :: e in Flattened(t)
  {
    var n := |t| - 1;
    var init := t[..n];
    if Lookup(init, key).Some? {
      assert Lookup(t, key) == Lookup(init, key) by {
        FirstLookupWins(init, t[n], key);
        assert t == init + [t[n]];
      }
      LookupWithinFlattened(init, key);
    } else {
      assert Lookup(t, key) == Some(t[n].1) by {
        FirstLookupWins(init, t[n], key);
        assert t == init + [t[n]];
      }
    }
  }

  /** Appending an entry to a table changes no earlier lookup, and finds the new entry for a fresh key. */
  lemma {:induction false} FirstLookupWins(t: Table, entry: (string, DeckEntry), key: string)
    ensures Lookup(t, key).Some? ==> Lookup(t + [entry], key) == Lookup(t, key)
    ensures Lookup(t, key).None? && entry.0 == key ==> Lookup(t + [entry], key) == Some(entry.1)
    ensures Lookup(t, key).None? && entry.0 != key ==> Lookup(t + [entry], key).None?
  {
    if t != [] {
      assert (t + [entry])[1..] == t[1..] + [entry];
      FirstLookupWins(t[1..], entry, key);
    }
  }

  /** No key occurs twice in `t`, so first-wins and last-wins lookups agree. */
  predicate DistinctKeys(t: Table) {
    forall i, j :: 0 <= i < j < |t| ==> t[i].0 != t[j].0
  }

  /** In a table without repeated keys, every entry is what its key looks up. */
  lemma {:induction false} LookupDistinct(t: Table, k: int)
    requires DistinctKeys(t) && 0 <= k < |t|
    ensures Lookup(t, t[k].0) == Some(t[k].1)
  {
    if k > 0 {
      assert t[0].0 != t[k].0;
      assert t[k] == t[1..][k - 1];
      LookupDistinct(t[1..], k - 1);
    }
  }

  /** None of the six constant tables repeats a key. */
  lemma TablesHaveDistinctKeys()
    ensures DistinctKeys(PRECON_ALPHA) && DistinctKeys(PRECON_BETA)
    ensures DistinctKeys(SINGLE_ELEMENT) && DistinctKeys(DOUBLE_ELEMENT)
    ensures DistinctKeys(TRIPLE_ELEMENT) && DistinctKeys(QUADRUPLE_ELEMENT)
  {
    AlphaPreconKeysDistinct();
    BetaPreconKeysDistinct();
    SingleElementKeysDistinct();
    DoubleElementKeysDistinct();
    TripleElementKeysDistinct();
    QuadrupleElementKeysDistinct();
  }

  lemma AlphaPreconKeysDistinct()
    ensures DistinctKeys(PRECON_ALPHA)
  {
  }

  lemma BetaPreconKeysDistinct()
    ensures DistinctKeys(PRECON_BETA)
  {
  }

  lemma SingleElementKeysDistinct()
    ensures DistinctKeys(SINGLE_ELEMENT)
  {
  }

  lemma DoubleElementKeysDistinct()
    ensures DistinctKeys(DOUBLE_ELEMENT)
  {
  }

  lemma TripleElementKeysDistinct()
    ensures DistinctKeys(TRIPLE_ELEMENT)
  {
  }

  lemma QuadrupleElementKeysDistinct()
    ensures DistinctKeys(QUADRUPLE_ELEMENT)
  {
  }

  /** Append every value of `t` to a fresh list, extending with a map's keys and adding anything else whole. */
  method Flatten(t: Table) returns (urls: seq<DeckEntry>)
    ensures urls == Flattened(t)
  {
    urls := [];
    for i := 0 to |t|
      invariant urls == Flattened(t[..i])
    {
      assert t[..i + 1][..i] == t[..i];
      match t[i].1
      case UrlMap(keys) =>
        urls := urls + Spread(t[i].1);
      case _ =>
        urls := urls + [t[i].1];
    }
    assert t[..|t|] == t;
  }

  // ---------------------------------------------------------------------------
  // The catalogue getters

  function AllPreconAlpha(): (r: seq<DeckEntry>)
    ensures |r| == 4 && forall k :: 0 <= k < 4 ==> r[k] == PRECON_ALPHA[k].1
  {
    Values(PRECON_ALPHA)
  }

  function AllPreconBeta(): (r: seq<DeckEntry>)
    ensures |r| == 4 && forall k :: 0 <= k < 4 ==> r[k] == PRECON_BETA[k].1
  {
    Values(PRECON_BETA)
  }

  method AllSingleElement() returns (urls: seq<DeckEntry>)
    ensures urls == Values(SINGLE_ELEMENT) && |urls| == 9
  {
    urls := Flatten(SINGLE_ELEMENT);
    ElementTablesHaveNoMaps();
    FlattenedWithoutMaps(SINGLE_ELEMENT);
  }

  method AllDoubleElement() returns (urls: seq<DeckEntry>)
    ensures urls == Values(DOUBLE_ELEMENT) && |urls| == 10
  {
    urls := Flatten(DOUBLE_ELEMENT);
    ElementTablesHaveNoMaps();
    FlattenedWithoutMaps(DOUBLE_ELEMENT);
  }

  method AllTripleElement() returns (urls: seq<DeckEntry>)
    ensures urls == Values(TRIPLE_ELEMENT) && |urls| == 4
  {
    urls := Flatten(TRIPLE_ELEMENT);
    ElementTablesHaveNoMaps();
    FlattenedWithoutMaps(TRIPLE_ELEMENT);
  }

  method AllQuadrupleElement() returns (urls: seq<DeckEntry>)
    ensures urls == Values(QUADRUPLE_ELEMENT) && |urls| == 2
  {
    urls := Flatten(QUADRUPLE_ELEMENT);
    ElementTablesHaveNoMaps();
    FlattenedWithoutMaps(QUADRUPLE_ELEMENT);
  }

  /** Every deck URL entry: alpha, beta, then one, two, three and four element decks, one element per table entry. */
  method AllDecks() returns (r: seq<DeckEntry>)
    ensures |r| == 33
    ensures r[..4] == Values(PRECON_ALPHA) && r[4..8] == Values(PRECON_BETA)
    ensures r[8..17] == Values(SINGLE_ELEMENT) && r[17..27] == Values(DOUBLE_ELEMENT)
    ensures r[27..31] == Values(TRIPLE_ELEMENT) && r[31..] == Values(QUADRUPLE_ELEMENT)
  {
    var single := AllSingleElement();
    var double := AllDoubleElement();
    var triple := AllTripleElement();
    var quadruple := AllQuadrupleElement();
    r := AllPreconAlpha() + AllPreconBeta() + single + double + triple + quadruple;
  }

  // ---------------------------------------------------------------------------
  // Per-avatar queries

  /** What one table adds to an avatar's deck list: its value spread out, or nothing when the avatar is absent. */
  function Contribution(t: Table, name: string): (r: seq<DeckEntry>)
    ensures !HasKey(t, name) ==> r == []
    ensures HasKey(t, name) ==> r == Spread(Lookup(t, name).value)
  {
    match Lookup(t, name)
    case None => []
    case Some(v) => Spread(v)
  }

  /** An avatar's decks: the contributions of the one, two, three and four element tables, in that order. */
  function AvatarDecks(name: string): seq<DeckEntry> {
    Contribution(SINGLE_ELEMENT, name) + Contribution(DOUBLE_ELEMENT, name)
    + Contribution(TRIPLE_ELEMENT, name) + Contribution(QUADRUPLE_ELEMENT, name)
  }

  /** `decks` extended by what table `t` holds for `name`: a map's keys, another value whole, nothing for an absent name. */
  method AddFrom(decks: seq<DeckEntry>, t: Table, name: string) returns (r: seq<DeckEntry>)
    ensures r == decks + Contribution(t, name)
  {
    r := decks;
    var found := Lookup(t, name);
    if found.Some? {
      var value := found.value;
      match value
      case UrlMap(keys) =>
        r := r + Spread(value);
      case _ =>
        r := r + [value];
    }
  }

  /** Collect the decks of `name`, consulting the one to four element tables in turn. */
  method GetAvatarDecks(name: string) returns (decks: seq<DeckEntry>)
    ensures decks == AvatarDecks(name)
  {
    decks := [];
    decks := AddFrom(decks, SINGLE_ELEMENT, name);
    assert decks == Contribution(SINGLE_ELEMENT, name);
    decks := AddFrom(decks, DOUBLE_ELEMENT, name);
    decks := AddFrom(decks, TRIPLE_ELEMENT, name);
    decks := AddFrom(decks, QUADRUPLE_ELEMENT, name);
  }

  /** A table without map values contributes nothing exactly when the name is not one of its keys. */
  lemma ContributionEmptyIff(t: Table, name: string)
    requires HasNoMaps(t)
    ensures Contribution(t, name) == [] <==> !HasKey(t, name)
  {
    if HasKey(t, name) {
      var k :| 0 <= k < |t| && t[k] == (name, Lookup(t, name).value);
    }
  }

  /** None of the constant tables holds a map value. */
  lemma ElementTablesHaveNoMaps()
    ensures HasNoMaps(SINGLE_ELEMENT) && HasNoMaps(DOUBLE_ELEMENT)
    ensures HasNoMaps(TRIPLE_ELEMENT) && HasNoMaps(QUADRUPLE_ELEMENT)
  {
    assert HasNoMaps(SINGLE_ELEMENT);
    assert HasNoMaps(DOUBLE_ELEMENT);
    assert HasNoMaps(TRIPLE_ELEMENT);
    assert HasNoMaps(QUADRUPLE_ELEMENT);
  }

  /** An avatar has decks exactly when one of the four element tables has it as a key. */
  lemma AvatarDecksEmptyIff(name: string)
    ensures AvatarDecks(name) == [] <==> !IsElementKey(name)
  {
    ElementTablesHaveNoMaps();
    ContributionEmptyIff(SINGLE_ELEMENT, name);
    ContributionEmptyIff(DOUBLE_ELEMENT, name);
    ContributionEmptyIff(TRIPLE_ELEMENT, name);
    ContributionEmptyIff(QUADRUPLE_ELEMENT, name);
  }

  /** Every deck of an avatar is among the flattened entries of one of the element tables. */
  lemma AvatarDecksWithinTables(name: string, e: DeckEntry)
    requires e in AvatarDecks(name)
    ensures e in Flattened(SINGLE_ELEMENT) || e in Flattened(DOUBLE_ELEMENT)
         || e in Flattened(TRIPLE_ELEMENT) || e in Flattened(QUADRUPLE_ELEMENT)
  {
    if e in Contribution(SINGLE_ELEMENT, name) {
      LookupWithinFlattened(SINGLE_ELEMENT, name);
    } else if e in Contribution(DOUBLE_ELEMENT, name) {
      LookupWithinFlattened(DOUBLE_ELEMENT, name);
    } else if e in Contribution(TRIPLE_ELEMENT, name) {
      LookupWithinFlattened(TRIPLE_ELEMENT, name);
    } else {
      LookupWithinFlattened(QUADRUPLE_ELEMENT, name);
    }
  }

  // ---------------------------------------------------------------------------
  // Sorting avatar names

  /** Python's string order: lexicographic by code point, a proper prefix first. */
  predicate Less(a: string, b: string)
    decreases |a|
  {
    if a == [] then b != []
    else if b == [] then false
    else if a[0] != b[0] then a[0] < b[0]
    else Less(a[1..], b[1..])
  }

  lemma {:induction false} LessIrreflexive(a: string)
    ensures !Less(a, a)
    decreases |a|
  {
    if a != [] {
      LessIrreflexive(a[1..]);
    }
  }

  lemma {:induction false} LessTransitive(a: string, b: string, c: string)
    requires Less(a, b) && Less(b, c)
    ensures Less(a, c)
    decreases |a|
  {
    if a != [] && b != [] && c != [] && a[0] == b[0] && b[0] == c[0] {
      LessTransitive(a[1..], b[1..], c[1..]);
    }
  }

  lemma {:induction false} LessTotal(a: string, b: string)
    requires a != b
    ensures Less(a, b) || Less(b, a)
    decreases |a|
  {
    if a != [] && b != [] && a[0] == b[0] {
      assert a == [a[0]] + a[1..] && b == [b[0]] + b[1..];
      LessTotal(a[1..], b[1..]);
    }
  }

  predicate StrictlySorted(s: seq<string>) {
    forall i, j :: 0 <= i < j < |s| ==> Less(s[i], s[j])
  }

  /** `x` placed into a strictly sorted list, unless it is already there. */
  function Insert(s: seq<string>, x: string): (r: seq<string>)
    requires StrictlySorted(s)
    ensures StrictlySorted(r)
    ensures forall y :: y in r <==> y in s || y == x
  {
    if s == [] then [x]
    else if s[0] == x then s
    else if Less(x, s[0]) then
      assert forall j :: 0 < j < |s| ==> Less(x, s[j]) by {
        forall j | 0 < j < |s| ensures Less(x, s[j]) {
          LessTransitive(x, s[0], s[j]);
        }
      }
      [x] + s
    else
      LessTotal(x, s[0]);
      var rest := Insert(s[1..], x);
      assert forall y | y in rest :: Less(s[0], y) by {
        forall y | y in rest ensures Less(s[0], y) {
          if y != x {
            var j :| 0 <= j < |s[1..]| && s[1..][j] == y;
            assert y == s[j + 1];
          }
        }
      }
      assert forall y :: y in [s[0]] + rest <==> y == s[0] || y in rest;
      [s[0]] + rest
  }

  /** The distinct strings of `s`, in ascending order: Python's `sorted` of the set of them. */
  function SortedDistinct(s: seq<string>): (r: seq<string>)
    ensures StrictlySorted(r)
    ensures forall y :: y in r <==> y in s
  {
    if s == [] then []
    else
      var r := Insert(SortedDistinct(s[..|s| - 1]), s[|s| - 1]);
      assert s == s[..|s| - 1] + [s[|s| - 1]];
      r
  }

  /** A strictly sorted list never repeats an entry. */
  lemma StrictlySortedDistinct(s: seq<string>)
    requires StrictlySorted(s)
    ensures forall i, j :: 0 <= i < j < |s| ==> s[i] != s[j]
  {
    forall i, j | 0 <= i < j < |s|
      ensures s[i] != s[j]
    {
      LessIrreflexive(s[i]);
    }
  }

  function Keys(t: Table): (r: seq<string>)
    ensures forall key :: key in r <==> HasKey(t, key)
  {
    var r := seq(|t|, k requires 0 <= k < |t| => t[k].0);
    assert forall key :: key in r ==> HasKey(t, key) by {
      forall key | key in r ensures HasKey(t, key) {
        var k :| 0 <= k < |r| && r[k] == key;
      }
    }
    assert forall key :: HasKey(t, key) ==> key in r by {
      forall key | HasKey(t, key) ensures key in r {
        var k :| 0 <= k < |t| && t[k].0 == key;
        assert r[k] == key;
      }
    }
    r
  }

  /** Every avatar with a deck in the element tables, sorted and without repeats; the precon tables add nothing. */
  function AvailableAvatars(): (r: seq<string>)
    ensures StrictlySorted(r)
    ensures forall i, j :: 0 <= i < j < |r| ==> r[i] != r[j]
    ensures forall name :: name in r <==> IsElementKey(name)
  {
    var r := SortedDistinct(Keys(SINGLE_ELEMENT) + Keys(DOUBLE_ELEMENT) + Keys(TRIPLE_ELEMENT) + Keys(QUADRUPLE_ELEMENT));
    StrictlySortedDistinct(r);
    r
  }

  /** A name is offered as an avatar exactly when it has decks. */
  lemma AvailableIffHasDecks(name: string)
    ensures name in AvailableAvatars() <==> AvatarDecks(name) != []
  {
    AvatarDecksEmptyIff(name);
  }
}
