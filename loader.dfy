/**
 * The pure parts of the loader: pulling a deck id out of a Curiosa URL, and
 * joining a Curiosa deck list to the card catalogue by folded card name.
 */
module Loader {
  import opened Wrappers
  import Seqs
  import Cards

  // ---------------------------------------------------------------------------
  // Deck ids

  /** `s` without its trailing run of '/'. */
  function RStripSlashes(s: string): (r: string)
    ensures |r| <= |s| && r == s[..|r|]
    ensures r == [] || r[|r| - 1] != '/'
    ensures forall k :: |r| <= k < |s| ==> s[k] == '/'
  {
    if s != [] && s[|s| - 1] == '/' then RStripSlashes(s[..|s| - 1]) else s
  }

  /** The text after the last '/' of `s`; all of `s` when it has none. */
  function AfterLastSlash(s: string): (r: string)
    ensures |r| <= |s| && r == s[|s| - |r|..]
    ensures '/' !in r
    ensures |r| < |s| ==> s[|s| - |r| - 1] == '/'
  {
    if s == [] then []
    else if s[|s| - 1] == '/' then []
    else
      var r := AfterLastSlash(s[..|s| - 1]);
      assert s[..|s| - 1][|s| - 1 - |r|..] + [s[|s| - 1]] == s[|s| - |r| - 1..];
      r + [s[|s| - 1]]
  }

  /** The pieces of `s` between the '/' separators, as Python's `split('/')` cuts them; never empty. */
  function Split(s: string): (r: seq<string>)
    ensures |r| >= 1
  {
    if s == [] then [[]]
    else
      var parts := Split(s[..|s| - 1]);
      if s[|s| - 1] == '/' then parts + [[]]
      else parts[..|parts| - 1] + [parts[|parts| - 1] + [s[|s| - 1]]]
  }

  /** Joining the pieces back with '/' gives `s` again: `'/'.join(s.split('/')) == s`. */
  lemma {:induction false} SplitJoinsBack(s: string)
    ensures Cards.Join(Split(s), "/") == s
  {
    if s != [] {
      var init, c := s[..|s| - 1], s[|s| - 1];
      assert s == init + [c];
      SplitJoinsBack(init);
      if c == '/' {
        Cards.JoinSnoc(Split(init), [], "/");
      } else {
        JoinExtendsLast(Split(init), c, "/");
      }
    }
  }

  /** No piece of the split holds a '/'. */
  lemma {:induction false} SplitPiecesHaveNoSlash(s: string)
    ensures forall k :: 0 <= k < |Split(s)| ==> '/' !in Split(s)[k]
  {
    if s != [] {
      SplitPiecesHaveNoSlash(s[..|s| - 1]);
    }
  }

  /** Extending the last part by one character extends the joined text by that character. */
  lemma JoinExtendsLast(parts: seq<string>, c: char, sep: string)
    requires |parts| >= 1
    ensures Cards.Join(parts[..|parts| - 1] + [parts[|parts| - 1] + [c]], sep) == Cards.Join(parts, sep) + [c]
  {
    var pre, last := parts[..|parts| - 1], parts[|parts| - 1];
    assert parts == pre + [last];
    if pre != [] {
      Cards.JoinSnoc(pre, last, sep);
      Cards.JoinSnoc(pre, last + [c], sep);
    }
  }

  /** The text after the last '/' is the last piece `split('/')` yields. */
  lemma {:induction false} AfterLastSlashIsLastPiece(s: string)
    ensures AfterLastSlash(s) == Split(s)[|Split(s)| - 1]
  {
    if s != [] {
      AfterLastSlashIsLastPiece(s[..|s| - 1]);
    }
  }

  /** A URL's last path segment once trailing slashes are dropped; text without any '/' is already an id. */
  function ExtractDeckId(urlOrId: string): (r: string)
    ensures '/' !in r
    ensures '/' !in urlOrId ==> r == urlOrId
    ensures '/' in urlOrId ==>
      var trimmed := RStripSlashes(urlOrId);
      |r| <= |trimmed| && r == trimmed[|trimmed| - |r|..] && (|r| < |trimmed| ==> trimmed[|trimmed| - |r| - 1] == '/')
  {
    if '/' in urlOrId then AfterLastSlash(RStripSlashes(urlOrId)) else urlOrId
  }

  /** The id read out of a URL is the last piece of the slash-trimmed URL split on '/'. */
  lemma ExtractDeckIdIsLastSegment(urlOrId: string)
    requires '/' in urlOrId
    ensures var pieces := Split(RStripSlashes(urlOrId)); ExtractDeckId(urlOrId) == pieces[|pieces| - 1]
  {
    AfterLastSlashIsLastPiece(RStripSlashes(urlOrId));
  }

  /** Extracting an id from an id changes nothing. */
  lemma ExtractDeckIdIdempotent(urlOrId: string)
    ensures ExtractDeckId(ExtractDeckId(urlOrId)) == ExtractDeckId(urlOrId)
  {
  }

  // ---------------------------------------------------------------------------
  // Matching a Curiosa deck list against the catalogue

  /** One line of a Curiosa deck list. */
  datatype CuriosaCard = CuriosaCard(name: string, quantity: int, src: string)

  /** A deck-list line joined to its catalogue entry. */
  datatype MatchedCard = MatchedCard(name: string, quantity: int, imgUrl: string, details: Cards.SorceryCard)

  /**
   * The position of the first catalogue card whose folded name is `key`.
   * `fold` stands for strip-then-lower-case, which is not modelled character by character.
   */
  function FirstMatch(catalogue: seq<Cards.SorceryCard>, key: string, fold: string -> string): (r: Option<nat>)
    ensures r.Some? ==> r.value < |catalogue| && fold(catalogue[r.value].name) == key
    ensures r.Some? ==> forall k :: 0 <= k < r.value ==> fold(catalogue[k].name) != key
    ensures r.None? <==> forall k :: 0 <= k < |catalogue| ==> fold(catalogue[k].name) != key
  {
    if catalogue == [] then None
    else if fold(catalogue[0].name) == key then Some(0)
    else match FirstMatch(catalogue[1..], key, fold)
      case None => None
      case Some(i) => Some(i + 1)
  }

  /** What one deck-list line contributes: the joined entry, or nothing when no catalogue name matches. */
  function Entry(catalogue: seq<Cards.SorceryCard>, fold: string -> string, card: CuriosaCard): (r: Option<MatchedCard>)
    ensures r.Some? <==> FirstMatch(catalogue, fold(card.name), fold).Some?
    ensures r.Some? ==>
      r.value.name == card.name && r.value.quantity == card.quantity && r.value.imgUrl == card.src &&
      r.value.details == catalogue[FirstMatch(catalogue, fold(card.name), fold).value]
  {
    match FirstMatch(catalogue, fold(card.name), fold)
    case None => None
    case Some(i) => Some(MatchedCard(card.name, card.quantity, card.src, catalogue[i]))
  }

  /** The deck-list lines that have a catalogue match. */
  function HasMatch(catalogue: seq<Cards.SorceryCard>, fold: string -> string): CuriosaCard -> bool {
    c => Entry(catalogue, fold, c).Some?
  }

  /** The joined entries of the lines that match, in deck-list order. */
  function MatchAll(curiosa: seq<CuriosaCard>, catalogue: seq<Cards.SorceryCard>, fold: string -> string): (r: seq<MatchedCard>)
    ensures |r| <= |curiosa|
  {
    if curiosa == [] then []
    else
      var last := curiosa[|curiosa| - 1];
      MatchAll(curiosa[..|curiosa| - 1], catalogue, fold)
      + match Entry(catalogue, fold, last) case None => [] case Some(e) => [e]
  }

  /** Join each deck-list line to the first catalogue card with the same folded name, dropping lines with none. */
  method MatchCuriosaToSorcery(curiosa: seq<CuriosaCard>, catalogue: seq<Cards.SorceryCard>, fold: string -> string)
    returns (matched: seq<MatchedCard>)
    ensures matched == MatchAll(curiosa, catalogue, fold)
  {
    matched := [];
    for i := 0 to |curiosa|
      invariant matched == MatchAll(curiosa[..i], catalogue, fold)
    {
      assert curiosa[..i + 1][..i] == curiosa[..i];
      var card := curiosa[i];
      var found := FirstMatch(catalogue, fold(card.name), fold);
      if found.Some? {
        matched := matched + [MatchedCard(card.name, card.quantity, card.src, catalogue[found.value])];
      }
    }
    assert curiosa[..|curiosa|] == curiosa;
  }

  /** Matching a list in two parts is matching each part. */
  lemma {:induction false} MatchAllAppend(a: seq<CuriosaCard>, b: seq<CuriosaCard>, catalogue: seq<Cards.SorceryCard>, fold: string -> string)
    ensures MatchAll(a + b, catalogue, fold) == MatchAll(a, catalogue, fold) + MatchAll(b, catalogue, fold)
    decreases |b|
  {
    if b == [] {
      assert a + b == a;
    } else {
      var n := |b| - 1;
      assert (a + b)[..|a + b| - 1] == a + b[..n];
      MatchAllAppend(a, b[..n], catalogue, fold);
    }
  }

  /** Entry m of `r` is what line m of `kept` joins to. */
  predicate Aligned(r: seq<MatchedCard>, kept: seq<CuriosaCard>, catalogue: seq<Cards.SorceryCard>, fold: string -> string) {
    |r| == |kept| && forall m :: 0 <= m < |r| ==> Entry(catalogue, fold, kept[m]) == Some(r[m])
  }

  /** Alignment survives appending one more line and what it contributes. */
  lemma AlignedExtend(r: seq<MatchedCard>, kept: seq<CuriosaCard>, last: CuriosaCard, catalogue: seq<Cards.SorceryCard>, fold: string -> string)
    requires Aligned(r, kept, catalogue, fold)
    ensures Aligned(r + (match Entry(catalogue, fold, last) case None => [] case Some(e) => [e]),
                    kept + (if HasMatch(catalogue, fold)(last) then [last] else []), catalogue, fold)
  {
  }

  /**
   * The join keeps exactly the lines that have a catalogue match, in their
   * deck-list order, and each kept line yields its own joined entry.
   */
  lemma {:induction false} MatchAllKeepsMatchedInOrder(curiosa: seq<CuriosaCard>, catalogue: seq<Cards.SorceryCard>, fold: string -> string)
    ensures Aligned(MatchAll(curiosa, catalogue, fold), Seqs.Filter(curiosa, HasMatch(catalogue, fold)), catalogue, fold)
  {
    if curiosa != [] {
      var n := |curiosa| - 1;
      var init := curiosa[..n];
      var last := curiosa[n];
      assert curiosa == init + [last];
      Seqs.FilterSnoc(init, last, HasMatch(catalogue, fold));
      MatchAllKeepsMatchedInOrder(init, catalogue, fold);
      AlignedExtend(MatchAll(init, catalogue, fold), Seqs.Filter(init, HasMatch(catalogue, fold)), last, catalogue, fold);
    }
  }

  /** Every line with a catalogue match yields an entry, and every entry comes from such a line. */
  lemma MatchAllMembership(curiosa: seq<CuriosaCard>, catalogue: seq<Cards.SorceryCard>, fold: string -> string)
    ensures forall c | c in curiosa && Entry(catalogue, fold, c).Some? :: Entry(catalogue, fold, c).value in MatchAll(curiosa, catalogue, fold)
    ensures forall e | e in MatchAll(curiosa, catalogue, fold) :: exists c | c in curiosa :: Entry(catalogue, fold, c) == Some(e)
  {
    var p := HasMatch(catalogue, fold);
    var kept := Seqs.Filter(curiosa, p);
    var r := MatchAll(curiosa, catalogue, fold);
    MatchAllKeepsMatchedInOrder(curiosa, catalogue, fold);
    forall c | c in curiosa && Entry(catalogue, fold, c).Some?
      ensures Entry(catalogue, fold, c).value in r
    {
      var m :| 0 <= m < |kept| && kept[m] == c;
      assert Entry(catalogue, fold, kept[m]) == Some(r[m]);
    }
    forall e | e in r
      ensures exists c | c in curiosa :: Entry(catalogue, fold, c) == Some(e)
    {
      var m :| 0 <= m < |r| && r[m] == e;
      assert kept[m] in curiosa;
    }
  }
}
