/**
 * Card catalogue data and per-card runtime state. A card compares the metadata
 * each printed set gives it with its canonical ("guardian") metadata, ignoring
 * surrounding whitespace and line-break formatting in text values, and records
 * the names of the sets that differ.
 */
module Cards {
  import opened Wrappers
  import Seqs

  /** A JSON value as the card catalogue delivers it. */
  datatype Value =
    | Str(s: string)
    | Int(i: int)
    | Bool(b: bool)
    | Null
    | Arr(items: seq<Value>)
    | Obj(fields: map<string, Value>)

  type Dict = map<string, Value>

  /** A printing of a card: the set's name and its metadata (None when absent or null). */
  datatype CardSet = CardSet(name: string, metadata: Option<Dict>)

  /** A catalogue record: the card's name, elements, subtypes, canonical metadata and printings. */
  datatype SorceryCard = SorceryCard(
    name: string,
    elements: Option<Value>,
    subTypes: Option<Value>,
    guardian: Dict,
    sets: seq<CardSet>)

  /** `d.get(key)`: the value stored under `key`, or nothing. */
  function Get(d: Dict, key: string): Option<Value> {
    if key in d then Some(d[key]) else None
  }

  // ---------------------------------------------------------------------------
  // Text normalisation

  /** The characters Python's `str.isspace` accepts, which `str.strip()` removes. */
  predicate IsSpace(c: char) {
    || '\t' <= c <= '\r'                 // tab, line feed, vertical tab, form feed, carriage return
    || '\U{1C}' <= c <= '\U{1F}'         // file, group, record and unit separators
    || c == ' ' || c == '\U{85}' || c == '\U{A0}' || c == '\U{1680}'
    || '\U{2000}' <= c <= '\U{200A}'     // en quad .. hair space
    || c == '\U{2028}' || c == '\U{2029}' || c == '\U{202F}' || c == '\U{205F}' || c == '\U{3000}'
  }

  /** `s` without its leading whitespace. */
  function StripLeft(s: string): (r: string)
    ensures |r| <= |s| && r == s[|s| - |r|..]
    ensures forall k :: 0 <= k < |s| - |r| ==> IsSpace(s[k])
    ensures r == [] || !IsSpace(r[0])
  {
    if s != [] && IsSpace(s[0]) then StripLeft(s[1..]) else s
  }

  /** `s` without its trailing whitespace. */
  function StripRight(s: string): (r: string)
    ensures |r| <= |s| && r == s[..|r|]
    ensures forall k :: |r| <= k < |s| ==> IsSpace(s[k])
    ensures r == [] || !IsSpace(r[|r| - 1])
  {
    if s != [] && IsSpace(s[|s| - 1]) then StripRight(s[..|s| - 1]) else s
  }

  /** `s.strip()`: both ends trimmed, so the result neither starts nor ends with whitespace. */
  function Strip(s: string): (r: string)
    ensures r == [] || (!IsSpace(r[0]) && !IsSpace(r[|r| - 1]))
    ensures |r| <= |s|
  {
    var left := StripLeft(s);
    var r := StripRight(left);
    assert r != [] ==> r[0] == left[0];
    r
  }

  /**
   * Cutting a whitespace prefix from `s` and then a whitespace suffix from what
   * remains leaves a middle slice of `s` with only whitespace around it.
   */
  lemma TrimmedIsMiddle(s: string, left: string, r: string)
    requires |left| <= |s| && left == s[|s| - |left|..]
    requires |r| <= |left| && r == left[..|r|]
    requires forall k :: 0 <= k < |s| - |left| ==> IsSpace(s[k])
    requires forall k :: |r| <= k < |left| ==> IsSpace(left[k])
    ensures var i := |s| - |left|;
      i + |r| <= |s| && r == s[i..i + |r|] &&
      (forall k :: 0 <= k < i ==> IsSpace(s[k])) &&
      (forall k :: i + |r| <= k < |s| ==> IsSpace(s[k]))
  {
    var i := |s| - |left|;
    forall k | i + |r| <= k < |s|
      ensures IsSpace(s[k])
    {
      assert s[k] == left[k - i];
    }
  }

  /** Stripping the right end of the left-stripped text keeps its first characters. */
  lemma StripIsPrefixOfLeft(s: string)
    ensures |Strip(s)| <= |StripLeft(s)|
    ensures forall k :: 0 <= k < |Strip(s)| ==> Strip(s)[k] == StripLeft(s)[k]
  {
    assert Strip(s) == StripRight(StripLeft(s));
  }

  /** The left-stripped text is the last characters of `s`. */
  lemma StripLeftIsSuffix(s: string)
    ensures forall k :: 0 <= k < |StripLeft(s)| ==> StripLeft(s)[k] == s[|s| - |StripLeft(s)| + k]
  {
  }

  /** Stripping keeps the slice of `s` that starts after its leading whitespace, character for character. */
  lemma StripIsSlice(s: string)
    ensures |s| - |StripLeft(s)| + |Strip(s)| <= |s|
    ensures forall k :: 0 <= k < |Strip(s)| ==> Strip(s)[k] == s[|s| - |StripLeft(s)| + k]
  {
    StripIsPrefixOfLeft(s);
    StripLeftIsSuffix(s);
  }

  /** Everything stripping removes, before and after that slice, is whitespace. */
  lemma StripRemovesOnlySpace(s: string)
    ensures var r, i := Strip(s), |s| - |StripLeft(s)|;
      (forall k :: 0 <= k < i ==> IsSpace(s[k])) &&
      (forall k :: i + |r| <= k < |s| ==> IsSpace(s[k]))
  {
    var left := StripLeft(s);
    var r := StripRight(left);
    assert Strip(s) == r;
    TrimmedIsMiddle(s, left, r);
  }

  /** The characters other than `target`. */
  function Other(target: char): char -> bool {
    c => c != target
  }

  /** `s.replace(target, "")` for a one-character `target`: every occurrence removed, the rest kept in order. */
  function RemoveChar(s: string, target: char): (r: string)
    ensures target !in r
    ensures |r| <= |s|
    ensures target !in s ==> r == s
    ensures s != [] && s[0] != target ==> r != [] && r[0] == s[0]
    ensures s != [] && s[|s| - 1] != target ==> r != [] && r[|r| - 1] == s[|s| - 1]
  {
    if s == [] then []
    else (if s[0] == target then [] else [s[0]]) + RemoveChar(s[1..], target)
  }

  /** Removing a character keeps every other character, in order: it is filtering by "not the target". */
  lemma {:induction false} RemoveCharIsFilter(s: string, target: char)
    ensures RemoveChar(s, target) == Seqs.Filter(s, Other(target))
  {
    if s != [] {
      RemoveCharIsFilter(s[1..], target);
    }
  }

  /** `s.replace(target, replacement)` for one-character `target` and `replacement`. */
  function ReplaceChar(s: string, target: char, replacement: char): (r: string)
    ensures |r| == |s|
    ensures forall k :: 0 <= k < |s| ==> r[k] == if s[k] == target then replacement else s[k]
  {
    seq(|s|, k requires 0 <= k < |s| => if s[k] == target then replacement else s[k])
  }

  /** Dropping carriage returns and turning line feeds into spaces leaves no line break behind. */
  lemma UnbreakRemovesBreaks(t: string)
    ensures var r := ReplaceChar(RemoveChar(t, '\r'), '\n', ' '); '\r' !in r && '\n' !in r
  {
    var noCr := RemoveChar(t, '\r');
    var r := ReplaceChar(noCr, '\n', ' ');
    assert forall k :: 0 <= k < |r| ==> r[k] == ' ' || r[k] == noCr[k];
  }

  /** ... and keeps a non-whitespace first and last character where they were. */
  lemma UnbreakKeepsEnds(t: string)
    requires t != [] && !IsSpace(t[0]) && !IsSpace(t[|t| - 1])
    ensures var r := ReplaceChar(RemoveChar(t, '\r'), '\n', ' ');
      r != [] && !IsSpace(r[0]) && !IsSpace(r[|r| - 1])
  {
    assert IsSpace('\r') && IsSpace('\n');
    var noCr := RemoveChar(t, '\r');
    assert noCr[0] == t[0] && noCr[|noCr| - 1] == t[|t| - 1];
  }

  /** Both facts together, for text that neither starts nor ends with whitespace. */
  lemma UnbreakStripped(t: string)
    requires t == [] || (!IsSpace(t[0]) && !IsSpace(t[|t| - 1]))
    ensures var r := ReplaceChar(RemoveChar(t, '\r'), '\n', ' ');
      '\r' !in r && '\n' !in r && (r == [] || (!IsSpace(r[0]) && !IsSpace(r[|r| - 1])))
  {
    UnbreakRemovesBreaks(t);
    if t != [] {
      UnbreakKeepsEnds(t);
    }
  }

  /**
   * A metadata text value as the comparison sees it: stripped, carriage returns
   * removed, line feeds turned into spaces. No line break survives, and the
   * result still neither starts nor ends with whitespace.
   */
  function NormalizeText(s: string): (r: string)
    ensures '\r' !in r && '\n' !in r
    ensures r == [] || (!IsSpace(r[0]) && !IsSpace(r[|r| - 1]))
  {
    var stripped := Strip(s);
    UnbreakStripped(stripped);
    ReplaceChar(RemoveChar(stripped, '\r'), '\n', ' ')
  }

  /** Text without surrounding whitespace is left alone by stripping. */
  lemma StripUnchanged(t: string)
    requires t == [] || (!IsSpace(t[0]) && !IsSpace(t[|t| - 1]))
    ensures Strip(t) == t
  {
    assert StripLeft(t) == t;
    assert StripRight(t) == t;
  }

  /** Replacing a character that does not occur changes nothing. */
  lemma ReplaceCharUnchanged(t: string, target: char, replacement: char)
    requires target !in t
    ensures ReplaceChar(t, target, replacement) == t
  {
  }

  /** Text with no line break and no whitespace at either end: the form every normalised text has. */
  predicate InNormalForm(t: string) {
    '\r' !in t && '\n' !in t && (t == [] || (!IsSpace(t[0]) && !IsSpace(t[|t| - 1])))
  }

  /** Text already free of line breaks and surrounding whitespace is its own normal form. */
  lemma NormalizeTextFixedPoint(t: string)
    requires InNormalForm(t)
    ensures NormalizeText(t) == t
  {
    StripUnchanged(t);
    ReplaceCharUnchanged(t, '\n', ' ');
  }

  /** Normalising text a second time changes nothing. */
  lemma NormalizeTextIdempotent(s: string)
    ensures NormalizeText(NormalizeText(s)) == NormalizeText(s)
  {
    NormalizeTextFixedPoint(NormalizeText(s));
  }

  // ---------------------------------------------------------------------------
  // Metadata comparison

  function NormalizeValue(v: Value): (r: Value)
    ensures r.Str? <==> v.Str?
    ensures !v.Str? ==> r == v
    ensures v.Str? ==> '\r' !in r.s && '\n' !in r.s
  {
    if v.Str? then Str(NormalizeText(v.s)) else v
  }

  /** Normalising a value twice is normalising it once. */
  lemma NormalizeValueIdempotent(v: Value)
    ensures NormalizeValue(NormalizeValue(v)) == NormalizeValue(v)
  {
    if v.Str? {
      NormalizeTextIdempotent(v.s);
    }
  }

  /**
   * The comparison form of a metadata dictionary: a missing or empty one is
   * `{}`; otherwise the same keys, text values normalised, every other value
   * untouched.
   */
  function NormalizeDict(d: Option<Dict>): (r: Dict)
    ensures d.None? ==> r == map[]
    ensures d.Some? ==> r.Keys == d.value.Keys
    ensures d.Some? ==> forall k | k in r :: !d.value[k].Str? ==> r[k] == d.value[k]
    ensures d.Some? ==> forall k | k in r :: d.value[k].Str? ==>
      r[k].Str? && '\r' !in r[k].s && '\n' !in r[k].s
    ensures d.Some? && d.value != map[] ==> forall k | k in r :: d.value[k].Str? ==> r[k] == Str(NormalizeText(d.value[k].s))
  {
    if d.None? || d.value == map[] then map[]
    else map k | k in d.value :: NormalizeValue(d.value[k])
  }

  /** Two metadata dictionaries are equal once trivial whitespace and line-break formatting is ignored. */
  predicate DictsEqual(d1: Option<Dict>, d2: Option<Dict>) {
    NormalizeDict(d1) == NormalizeDict(d2)
  }

  /** Comparison is an equivalence, and a missing dictionary equals an empty one. */
  lemma DictsEqualIsEquivalence(d1: Option<Dict>, d2: Option<Dict>, d3: Option<Dict>)
    ensures DictsEqual(d1, d1)
    ensures DictsEqual(d1, d2) <==> DictsEqual(d2, d1)
    ensures DictsEqual(d1, d2) && DictsEqual(d2, d3) ==> DictsEqual(d1, d3)
    ensures DictsEqual(None, Some(map[]))
  {
  }

  /** A missing dictionary or one with no entries. */
  predicate IsEmptyDict(d: Option<Dict>) {
    d.None? || d.value == map[]
  }

  /**
   * Dictionaries that compare equal are both empty or both not; when not, they
   * have the same keys, agree on which values are text, and hold the same
   * non-text values.
   */
  lemma DictsEqualAgreement(d1: Option<Dict>, d2: Option<Dict>)
    requires DictsEqual(d1, d2)
    ensures IsEmptyDict(d1) <==> IsEmptyDict(d2)
    ensures !IsEmptyDict(d1) ==> d1.value.Keys == d2.value.Keys
    ensures !IsEmptyDict(d1) ==> forall k | k in d1.value ::
      (d1.value[k].Str? <==> d2.value[k].Str?) && (!d1.value[k].Str? ==> d1.value[k] == d2.value[k])
  {
    if !IsEmptyDict(d1) {
      var n1, n2 := NormalizeDict(d1), NormalizeDict(d2);
      var k :| k in d1.value;
      assert k in n1;
      assert !IsEmptyDict(d2);
      forall k | k in d1.value
        ensures (d1.value[k].Str? <==> d2.value[k].Str?) && (!d1.value[k].Str? ==> d1.value[k] == d2.value[k])
      {
        assert n1[k] == n2[k];
      }
    }
  }

  /** A dictionary compares equal to its own normalised form. */
  lemma DictsEqualNormalized(d: Dict)
    ensures DictsEqual(Some(d), Some(NormalizeDict(Some(d))))
  {
    var n := NormalizeDict(Some(d));
    if d != map[] {
      forall k | k in n
        ensures NormalizeValue(n[k]) == n[k]
      {
        if d[k].Str? {
          NormalizeTextIdempotent(d[k].s);
        }
      }
      assert NormalizeDict(Some(n)) == n;
    }
  }

  /** Text values that differ only in surrounding whitespace and line breaks compare equal. */
  lemma DictsEqualIgnoresLineBreaks(key: string, a: string, b: string)
    requires NormalizeText(a) == NormalizeText(b)
    ensures DictsEqual(Some(map[key := Str(a)]), Some(map[key := Str(b)]))
  {
  }

  /** A one-entry dictionary with a text value normalises to the normal form of that text. */
  lemma NormalizeSingleton(key: string, a: string)
    ensures NormalizeDict(Some(map[key := Str(a)])) == map[key := Str(NormalizeText(a))]
  {
  }

  /** Two text values compare equal exactly when their normal forms agree. */
  lemma DictsEqualTextIff(key: string, a: string, b: string)
    ensures DictsEqual(Some(map[key := Str(a)]), Some(map[key := Str(b)])) <==> NormalizeText(a) == NormalizeText(b)
  {
    NormalizeSingleton(key, a);
    NormalizeSingleton(key, b);
    var ma, mb := map[key := Str(NormalizeText(a))], map[key := Str(NormalizeText(b))];
    assert ma == mb ==> ma[key] == mb[key];
  }

  /** Two different texts already in normal form never compare equal: only formatting is ignored. */
  lemma DictsEqualKeepsContent(key: string, a: string, b: string)
    requires InNormalForm(a) && InNormalForm(b) && a != b
    ensures !DictsEqual(Some(map[key := Str(a)]), Some(map[key := Str(b)]))
  {
    NormalizeTextFixedPoint(a);
    NormalizeTextFixedPoint(b);
    DictsEqualTextIff(key, a, b);
  }

  function Differs(s: CardSet, guardian: Dict): bool {
    !DictsEqual(s.metadata, Some(guardian))
  }

  function DiffersFrom(guardian: Dict): CardSet -> bool {
    s => Differs(s, guardian)
  }

  /** The names of the sets that satisfy `p`, in set order. */
  function NamesWhere(sets: seq<CardSet>, p: CardSet -> bool): (r: seq<string>)
    ensures |r| <= |sets|
  {
    if sets == [] then []
    else
      var init := sets[..|sets| - 1];
      var last := sets[|sets| - 1];
      NamesWhere(init, p) + (if p(last) then [last.name] else [])
  }

  /**
   * The names of the sets whose metadata is not equal to `guardian`, in set
   * order: a set's name appears exactly when that set differs.
   */
  function DifferingSetNames(sets: seq<CardSet>, guardian: Dict): (r: seq<string>)
    ensures |r| <= |sets|
  {
    NamesWhere(sets, DiffersFrom(guardian))
  }

  /** Every name listed belongs to a set satisfying `p`, and every such set's name is listed. */
  lemma {:induction false} NamesWhereSpec(sets: seq<CardSet>, p: CardSet -> bool)
    ensures forall n | n in NamesWhere(sets, p) :: exists s | s in sets :: s.name == n && p(s)
    ensures forall s | s in sets :: p(s) ==> s.name in NamesWhere(sets, p)
  {
    if sets != [] {
      var init, last := sets[..|sets| - 1], sets[|sets| - 1];
      assert sets == init + [last];
      NamesWhereSpec(init, p);
    }
  }

  /** Every recorded name belongs to a differing set, and every differing set's name is recorded. */
  lemma DifferingSetNamesSpec(sets: seq<CardSet>, guardian: Dict)
    ensures forall n | n in DifferingSetNames(sets, guardian) :: exists s | s in sets :: s.name == n && Differs(s, guardian)
    ensures forall s | s in sets :: Differs(s, guardian) ==> s.name in DifferingSetNames(sets, guardian)
  {
    NamesWhereSpec(sets, DiffersFrom(guardian));
  }

  /** No name is recorded exactly when every set agrees with the guardian metadata. */
  lemma NoDifferencesIff(sets: seq<CardSet>, guardian: Dict)
    ensures DifferingSetNames(sets, guardian) == [] <==> forall s | s in sets :: !Differs(s, guardian)
  {
    DifferingSetNamesSpec(sets, guardian);
    var r := DifferingSetNames(sets, guardian);
    if r != [] {
      assert r[0] in r;
    }
  }

  /** The names of `sets`, in order. */
  function Names(sets: seq<CardSet>): (r: seq<string>)
    ensures |r| == |sets| && forall k :: 0 <= k < |r| ==> r[k] == sets[k].name
  {
    seq(|sets|, k requires 0 <= k < |sets| => sets[k].name)
  }

  /** Naming one more set appends its name. */
  lemma NamesSnoc(sets: seq<CardSet>, x: CardSet)
    ensures Names(sets + [x]) == Names(sets) + [x.name]
  {
  }

  /** Listing the names of the sets satisfying `p` is naming the sets `p` keeps, in order. */
  lemma {:induction false} NamesWhereInOrder(sets: seq<CardSet>, p: CardSet -> bool)
    ensures NamesWhere(sets, p) == Names(Seqs.Filter(sets, p))
  {
    if sets != [] {
      var init, last := sets[..|sets| - 1], sets[|sets| - 1];
      assert sets == init + [last];
      Seqs.FilterSnoc(init, last, p);
      NamesWhereInOrder(init, p);
      var kept := Seqs.Filter(init, p);
      if p(last) {
        NamesSnoc(kept, last);
      } else {
        assert kept + [] == kept;
      }
    }
  }

  /** The recorded names are those of the differing sets, kept in set order. */
  lemma DifferingSetNamesInOrder(sets: seq<CardSet>, guardian: Dict)
    ensures DifferingSetNames(sets, guardian) == Names(Seqs.Filter(sets, DiffersFrom(guardian)))
  {
    NamesWhereInOrder(sets, DiffersFrom(guardian));
  }

  /** Walks the sets in order, appending the name of each one whose metadata differs. */
  method CheckMetadataDifferences(sets: seq<CardSet>, guardian: Dict) returns (differences: seq<string>)
    ensures differences == DifferingSetNames(sets, guardian)
  {
    differences := [];
    for i := 0 to |sets|
      invariant differences == DifferingSetNames(sets[..i], guardian)
    {
      assert sets[..i + 1][..i] == sets[..i];
      if !DictsEqual(sets[i].metadata, Some(guardian)) {
        differences := differences + [sets[i].name];
      }
    }
    assert sets[..|sets|] == sets;
  }

  // ---------------------------------------------------------------------------
  // Rendering

  function DigitChar(d: int): char
    requires 0 <= d < 10
  {
    ('0' as int + d) as char
  }

  predicate IsDigit(c: char) {
    '0' <= c <= '9'
  }

  /** The number a string of decimal digits denotes, most significant first. */
  function DecimalValue(s: string): int {
    if s == [] then 0 else 10 * DecimalValue(s[..|s| - 1]) + (s[|s| - 1] as int - '0' as int)
  }

  /** Python's `int(s)` on an optionally signed string of digits. */
  function ParseInt(s: string): int {
    if s != [] && s[0] == '-' then -DecimalValue(s[1..]) else DecimalValue(s)
  }

  function NatToString(n: nat): string
    decreases n
  {
    if n < 10 then [DigitChar(n)] else NatToString(n / 10) + [DigitChar(n % 10)]
  }

  /** The decimal form of `n` is a non-empty string of digits that denotes `n`. */
  lemma {:induction false} NatToStringDenotes(n: nat)
    ensures NatToString(n) != [] && forall k :: 0 <= k < |NatToString(n)| ==> IsDigit(NatToString(n)[k])
    ensures DecimalValue(NatToString(n)) == n
  {
    if n >= 10 {
      NatToStringDenotes(n / 10);
      var s := NatToString(n / 10);
      assert (s + [DigitChar(n % 10)])[..|s|] == s;
    }
  }

  /** Printing an integer and reading it back gives the integer: `int(str(i)) == i`. */
  lemma ShowIntRoundTrip(i: int)
    ensures ParseInt(Show(Some(Int(i)))) == i
  {
    if i < 0 {
      NatToStringDenotes(-i);
      assert ("-" + NatToString(-i))[1..] == NatToString(-i);
    } else {
      NatToStringDenotes(i);
      assert IsDigit(NatToString(i)[0]);
    }
  }

  /** `str(v)` for a present scalar value; `None` prints as "None". */
  function Show(v: Option<Value>): string {
    match v
    case None => "None"
    case Some(Str(s)) => s
    case Some(Int(i)) => if i < 0 then "-" + NatToString(-i) else NatToString(i)
    case Some(Bool(b)) => if b then "True" else "False"
    case Some(Null) => "None"
    case Some(Arr(_)) => "[...]"
    case Some(Obj(_)) => "{...}"
  }

  /** `sep.join(parts)`. */
  function Join(parts: seq<string>, sep: string): (r: string)
    ensures parts == [] ==> r == ""
    ensures |parts| == 1 ==> r == parts[0]
    ensures |parts| >= 1 ==> |r| >= |parts[0]| && r[..|parts[0]|] == parts[0]
  {
    if parts == [] then ""
    else if |parts| == 1 then parts[0]
    else parts[0] + sep + Join(parts[1..], sep)
  }

  /** Joining one more part appends the separator and that part: every part appears, in order, separated by `sep`. */
  lemma {:induction false} JoinSnoc(parts: seq<string>, x: string, sep: string)
    requires |parts| > 0
    ensures Join(parts + [x], sep) == Join(parts, sep) + sep + x
  {
    if |parts| == 1 {
      assert (parts + [x])[1..] == [x];
    } else {
      assert (parts + [x])[1..] == parts[1..] + [x];
      JoinSnoc(parts[1..], x, sep);
    }
  }

  // ---------------------------------------------------------------------------
  // The card

  class Card {
    const name: string
    const elements: Option<Value>
    const subtypes: Option<Value>
    const rarity: Option<Value>
    const cardType: Option<Value>
    const rulesText: Option<Value>
    const cost: Option<Value>
    const attack: Option<Value>
    const defence: Option<Value>
    const life: Option<Value>
    const thresholds: Option<Value>
    const imageUrl: string

    var artifacts: seq<Card>
    var movement: string
    var range: int

    var isTapped: bool
    var hasSummoningSickness: bool
    var isCarrying: bool
    var isAirborne: bool
    var isSubmergeable: bool
    var isBurrowable: bool
    var isStealthy: bool
    var canBurrow: bool
    var canSubmerge: bool
    var isDisabled: bool
    var isImmobile: bool
    var isLethal: bool
    var isWaterbound: bool
    var isLandbound: bool
    var isVoidwalker: bool
    var isSpellcaster: bool
    var isRanged: bool

    const setDifferences: seq<string>
    /** The catalogue record the card was built from. */
    ghost const source: SorceryCard

    ghost predicate Valid() {
      setDifferences == DifferingSetNames(source.sets, source.guardian)
    }

    /** Every runtime flag is off; the card moves to adjacent cells, strikes at range 1 and carries nothing. */
    ghost predicate Fresh()
      reads this
    {
      && artifacts == [] && movement == "adjacent" && range == 1
      && !isTapped && !hasSummoningSickness && !isCarrying && !isAirborne
      && !isSubmergeable && !isBurrowable && !isStealthy && !canBurrow && !canSubmerge
      && !isDisabled && !isImmobile && !isLethal && !isWaterbound && !isLandbound
      && !isVoidwalker && !isSpellcaster && !isRanged
    }

    constructor (imageUrl: string, data: SorceryCard)
      ensures Valid() && Fresh() && source == data
      ensures name == data.name && this.imageUrl == imageUrl
      ensures elements == data.elements && subtypes == data.subTypes
      ensures cardType == Get(data.guardian, "type") && rulesText == Get(data.guardian, "rulesText")
      ensures cost == Get(data.guardian, "cost") && thresholds == Get(data.guardian, "thresholds")
      ensures attack == Get(data.guardian, "attack") && defence == Get(data.guardian, "defence")
      ensures life == Get(data.guardian, "life") && rarity == Get(data.guardian, "rarity")
    {
      name := data.name;
      elements := data.elements;
      subtypes := data.subTypes;
      var guardian := data.guardian;
      rarity := Get(guardian, "rarity");
      cardType := Get(guardian, "type");
      rulesText := Get(guardian, "rulesText");
      cost := Get(guardian, "cost");
      attack := Get(guardian, "attack");
      defence := Get(guardian, "defence");
      life := Get(guardian, "life");
      thresholds := Get(guardian, "thresholds");
      this.imageUrl := imageUrl;

      artifacts := [];
      movement := "adjacent";
      range := 1;

      isTapped := false;
      hasSummoningSickness := false;
      isCarrying := false;
      isAirborne := false;
      isSubmergeable := false;
      isBurrowable := false;
      isStealthy := false;
      canBurrow := false;
      canSubmerge := false;
      isDisabled := false;
      isImmobile := false;
      isLethal := false;
      isWaterbound := false;
      isLandbound := false;
      isVoidwalker := false;
      isSpellcaster := false;
      isRanged := false;

      source := data;
      var differences := CheckMetadataDifferences(data.sets, guardian);
      setDifferences := differences;
    }

    /** The card has a single version exactly when every printing's metadata matches the guardian's. */
    predicate HasSingleVersion()
      requires Valid()
      ensures HasSingleVersion() <==> forall s | s in source.sets :: DictsEqual(s.metadata, Some(source.guardian))
    {
      NoDifferencesIff(source.sets, source.guardian);
      |setDifferences| == 0
    }

    /** "<name> [<type>] - Single", or "... - Variants in: " and the differing set names joined by ", ". */
    function Summary(): (r: string)
      requires Valid()
      ensures var head := name + " [" + Show(cardType) + "] - ";
        |r| > |head| && r[..|head|] == head &&
        (HasSingleVersion() ==> r[|head|..] == "Single") &&
        (!HasSingleVersion() ==> r[|head|..] == "Variants in: " + Join(setDifferences, ", "))
    {
      var version := if HasSingleVersion() then "Single" else "Variants in: " + Join(setDifferences, ", ");
      name + " [" + Show(cardType) + "] - " + version
    }
  }
}
