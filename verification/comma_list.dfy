/**
  Comma-joined card attributes (`data-images`, `data-features`,
  `data-tech`) and the modal list sections built from them.
 */
module CommaList {
  import opened Text
  import Seqs

  /** A piece survives parsing when `piece.trim() !== ''`. */
  predicate Kept(piece: string) {
    Trim(piece) != ""
  }

  /**
    `(field || "").split(',').filter(item => item.trim() !== '')`: the
    comma-separated pieces that are not blank, in order and untrimmed.
   */
  function ParseList(field: MaybeString): (r: seq<string>)
    ensures forall k :: 0 <= k < |r| ==> Trim(r[k]) != ""
  {
    Seqs.Keep(Split(OrEmpty(field)), Kept)
  }

  /** A piece is kept exactly when it has a non-whitespace character. */
  lemma {:induction false} KeptIffNotBlank(piece: string)
    ensures Kept(piece) <==> !IsBlank(piece)
  {
    TrimEmptyIffBlank(piece);
  }

  /** Each parsed item is a non-blank, comma-free piece of the attribute. */
  lemma {:induction false} ParsedItemIsPiece(field: MaybeString, k: nat)
    requires k < |ParseList(field)|
    ensures !IsBlank(ParseList(field)[k]) && ',' !in ParseList(field)[k]
    ensures ParseList(field)[k] in Split(OrEmpty(field))
  {
    var pieces := Split(OrEmpty(field));
    var item := ParseList(field)[k];
    KeptIffNotBlank(item);
    Seqs.KeptIndexAt(pieces, Kept, 0, k);
    var i := Seqs.KeptIndices(pieces, Kept, 0)[k];
    assert item == pieces[i];
  }

  /** Each non-blank piece of the attribute is among the parsed items. */
  lemma {:induction false} NonBlankPieceIsParsed(field: MaybeString, i: nat)
    requires i < |Split(OrEmpty(field))| && !IsBlank(Split(OrEmpty(field))[i])
    ensures Split(OrEmpty(field))[i] in ParseList(field)
  {
    var pieces := Split(OrEmpty(field));
    KeptIffNotBlank(pieces[i]);
    var k := Seqs.KeptRank(pieces, Kept, 0, i);
    assert ParseList(field)[k] == pieces[i];
  }

  /**
    Every parsed item is a non-blank, comma-free piece of the attribute, and
    every non-blank piece is parsed. Items are not trimmed, and they keep the
    attribute's order and repetitions: the `k`-th item is the piece at the
    `k`-th of a strictly increasing run of positions.
   */
  lemma {:induction false} ParseListItems(field: MaybeString)
    ensures forall k :: 0 <= k < |ParseList(field)| ==>
      !IsBlank(ParseList(field)[k]) && ',' !in ParseList(field)[k] && ParseList(field)[k] in Split(OrEmpty(field))
    ensures forall i :: 0 <= i < |Split(OrEmpty(field))| && !IsBlank(Split(OrEmpty(field))[i]) ==>
      Split(OrEmpty(field))[i] in ParseList(field)
    ensures var pieces, idx := Split(OrEmpty(field)), Seqs.KeptIndices(Split(OrEmpty(field)), Kept, 0);
      && |idx| == |ParseList(field)|
      && (forall k :: 0 <= k < |idx| ==> idx[k] < |pieces| && ParseList(field)[k] == pieces[idx[k]])
      && (forall j, k :: 0 <= j < k < |idx| ==> idx[j] < idx[k])
      && (forall i :: 0 <= i < |pieces| ==> (Kept(pieces[i]) <==> i in idx))
  {
    Seqs.KeepIsSubsequence(Split(OrEmpty(field)), Kept);
    forall k | 0 <= k < |ParseList(field)|
      ensures !IsBlank(ParseList(field)[k]) && ',' !in ParseList(field)[k] && ParseList(field)[k] in Split(OrEmpty(field))
    {
      ParsedItemIsPiece(field, k);
    }
    forall i | 0 <= i < |Split(OrEmpty(field))| && !IsBlank(Split(OrEmpty(field))[i])
      ensures Split(OrEmpty(field))[i] in ParseList(field)
    {
      NonBlankPieceIsParsed(field, i);
    }
  }

  /** A missing attribute, like an empty or all-blank one, yields no items. */
  lemma {:induction false} ParseListBlank(field: MaybeString)
    requires IsBlank(OrEmpty(field))
    ensures ParseList(field) == []
  {
    var s := OrEmpty(field);
    if s == "" {
      assert Split(s) == [""];
      assert Trim("") == "";
    } else {
      var pieces := Split(s);
      JoinSplit(s);
      forall i | 0 <= i < |pieces| ensures !Kept(pieces[i]) {
        PieceOfBlankIsBlank(pieces, i);
        KeptIffNotBlank(pieces[i]);
      }
      Seqs.KeepNone(pieces, Kept);
    }
  }

  /** Each piece of an all-blank comma-join is itself blank. */
  lemma {:induction false} PieceOfBlankIsBlank(pieces: seq<string>, i: nat)
    requires i < |pieces|
    requires IsBlank(Join(pieces))
    ensures IsBlank(pieces[i])
  {
    if |pieces| > 1 {
      var tail := Join(pieces[1..]);
      assert Join(pieces) == pieces[0] + "," + tail;
      if i == 0 {
        forall j | 0 <= j < |pieces[0]| ensures IsWhitespace(pieces[0][j]) {
          assert Join(pieces)[j] == pieces[0][j];
        }
      } else {
        forall j | 0 <= j < |tail| ensures IsWhitespace(tail[j]) {
          assert Join(pieces)[|pieces[0]| + 1 + j] == tail[j];
        }
        PieceOfBlankIsBlank(pieces[1..], i - 1);
      }
    }
  }

  /**
    Round trip: joining non-blank, comma-free items with commas and parsing
    the result gives back exactly those items.
   */
  lemma {:induction false} ParseJoin(items: seq<string>)
    requires |items| >= 1
    requires forall k :: 0 <= k < |items| ==> ',' !in items[k] && !IsBlank(items[k])
    ensures ParseList(Present(Join(items))) == items
  {
    SplitJoin(items);
    forall k | 0 <= k < |items| ensures Kept(items[k]) {
      KeptIffNotBlank(items[k]);
    }
    Seqs.KeepAll(items, Kept);
  }

  /** A modal list section: hidden, or shown with one entry per item. */
  datatype ListSection = ListSection(shown: bool, items: seq<string>)

  /**
    `createListItems`: the section is hidden, with its list cleared, when the
    attribute parses to no items; otherwise it is shown with one entry per
    parsed item, in order. The `dataArray[0] === ''` test of the source
    can never fire, because parsing has already dropped blank pieces.
   */
  function CreateListItems(field: MaybeString): (r: ListSection)
    ensures r.shown <==> |ParseList(field)| > 0
    ensures r.shown ==> r.items == ParseList(field)
    ensures !r.shown ==> r.items == []
  {
    var data := ParseList(field);
    if |data| == 0 || data[0] == "" then ListSection(false, [])
    else ListSection(true, data)
  }
}
