/**
 * Tag text: split on commas, each piece trimmed, empty pieces dropped. The same
 * parsing serves a task's tags when it is saved and the tag filter text; the tag box
 * of the edit form is filled with the tags joined by ", ".
 */
module Tags {
  import opened Text

  /** Each piece trimmed, the pieces that are then empty dropped, the rest kept in order. */
  function TrimNonEmpty(pieces: seq<string>): (r: seq<string>)
    ensures |r| <= |pieces|
    ensures forall t | t in r :: t != [] && Trim(t) == t
  {
    if pieces == [] then []
    else
      var t := Trim(pieces[0]);
      var rest := TrimNonEmpty(pieces[1..]);
      assert pieces[0] in pieces;
      assert forall p | p in pieces[1..] :: p in pieces;
      (if t == [] then [] else [t]) + rest
  }

  /** Trimming and dropping pieces introduces no character. */
  lemma {:induction false} TrimNonEmptyAvoids(pieces: seq<string>, c: char)
    requires forall p | p in pieces :: c !in p
    ensures forall t | t in TrimNonEmpty(pieces) :: c !in t
  {
    if pieces != [] {
      assert pieces[0] in pieces;
      TrimAvoids(pieces[0], c);
      assert forall p | p in pieces[1..] :: p in pieces;
      TrimNonEmptyAvoids(pieces[1..], c);
    }
  }

  /** A tag list as `saveTask` stores it: non-empty, trimmed, comma-free entries. */
  predicate Normalized(tags: seq<string>) {
    forall i | 0 <= i < |tags| :: tags[i] != [] && Trim(tags[i]) == tags[i] && ',' !in tags[i]
  }

  /** The tags parsed from comma-separated text. */
  function ParseTags(text: string): (tags: seq<string>)
    ensures Normalized(tags)
  {
    var pieces := Split(text, ',');
    TrimNonEmptyAvoids(pieces, ',');
    var tags := TrimNonEmpty(pieces);
    assert forall i | 0 <= i < |tags| :: tags[i] in tags;
    tags
  }

  /** One piece gives its trimmed text, or nothing when it is blank. */
  lemma TrimNonEmptyOne(p: string)
    ensures TrimNonEmpty([p]) == if Blank(p) then [] else [Trim(p)]
  {
    assert [p][1..] == [];
  }

  /** The pieces are processed one by one: trimming and dropping distributes over concatenation. */
  lemma {:induction false} TrimNonEmptyAppend(a: seq<string>, b: seq<string>)
    ensures TrimNonEmpty(a + b) == TrimNonEmpty(a) + TrimNonEmpty(b)
  {
    if a != [] {
      assert (a + b)[0] == a[0];
      assert (a + b)[1..] == a[1..] + b;
      TrimNonEmptyAppend(a[1..], b);
    } else {
      assert a + b == b;
    }
  }

  /** Text without a comma is one piece: its trimmed text is the only tag, unless it is blank. */
  lemma ParseTagsOne(p: string)
    requires ',' !in p
    ensures ParseTags(p) == if Blank(p) then [] else [Trim(p)]
  {
    SplitJoin([p], ',');
    TrimNonEmptyOne(p);
  }

  /**
   * The tags of two texts joined by a comma are the tags of the first followed by those of
   * the second: together with `ParseTagsOne`, every piece is kept in order, trimmed, with the
   * blank ones dropped and duplicates kept.
   */
  lemma ParseTagsAppend(a: string, b: string)
    ensures ParseTags(a + "," + b) == ParseTags(a) + ParseTags(b)
  {
    SplitAppend(a, b, ',');
    TrimNonEmptyAppend(Split(a, ','), Split(b, ','));
  }

  /** Pieces none of which is blank are all kept, trimmed, in order, duplicates included. */
  lemma {:induction false} TrimNonEmptyKeepsAll(pieces: seq<string>)
    requires forall p | p in pieces :: !Blank(p)
    ensures |TrimNonEmpty(pieces)| == |pieces|
    ensures forall i | 0 <= i < |pieces| :: TrimNonEmpty(pieces)[i] == Trim(pieces[i])
  {
    if pieces != [] {
      assert pieces[0] in pieces;
      assert forall p | p in pieces[1..] :: p in pieces;
      TrimNonEmptyKeepsAll(pieces[1..]);
      var rest := TrimNonEmpty(pieces[1..]);
      assert TrimNonEmpty(pieces) == [Trim(pieces[0])] + rest;
    }
  }

  /** Blank pieces vanish: text made only of commas and white space has no tags. */
  lemma {:induction false} TrimNonEmptyDropsBlank(pieces: seq<string>)
    requires forall p | p in pieces :: Blank(p)
    ensures TrimNonEmpty(pieces) == []
  {
    if pieces != [] {
      assert pieces[0] in pieces;
      assert forall p | p in pieces[1..] :: p in pieces;
      TrimNonEmptyDropsBlank(pieces[1..]);
    }
  }

  /** Parsing comma-joined comma-free pieces is trimming them and dropping the blank ones. */
  lemma ParseJoined(pieces: seq<string>)
    requires |pieces| >= 1
    requires forall p | p in pieces :: ',' !in p
    ensures ParseTags(Join(pieces, ",")) == TrimNonEmpty(pieces)
  {
    SplitJoin(pieces, ',');
  }

  /** Each tag after the first, as it appears between commas in `tags.join(', ')`. */
  function Spaced(tags: seq<string>): (r: seq<string>)
    ensures |r| == |tags|
    ensures forall i | 0 <= i < |tags| :: r[i] == [' '] + tags[i]
  {
    if tags == [] then [] else [[' '] + tags[0]] + Spaced(tags[1..])
  }

  /** Joining with ", " is joining the spaced-out tags with "," after one leading space. */
  lemma {:induction false} JoinSpaced(tags: seq<string>)
    requires |tags| >= 1
    ensures Join(Spaced(tags), ",") == [' '] + Join(tags, ", ")
  {
    var sp := Spaced(tags);
    if |tags| > 1 {
      JoinSpaced(tags[1..]);
      assert sp[1..] == Spaced(tags[1..]);
      assert Join(sp, ",") == sp[0] + "," + Join(Spaced(tags[1..]), ",");
      assert Join(tags, ", ") == tags[0] + ", " + Join(tags[1..], ", ");
    }
  }

  /** `tags.join(', ')` is the first tag and the spaced-out others joined by ','. */
  lemma JoinTagsAsPieces(tags: seq<string>)
    requires |tags| >= 1
    ensures Join(tags, ", ") == Join([tags[0]] + Spaced(tags[1..]), ",")
  {
    var pieces := [tags[0]] + Spaced(tags[1..]);
    if |tags| > 1 {
      var rest := Join(tags[1..], ", ");
      JoinSpaced(tags[1..]);
      assert pieces[1..] == Spaced(tags[1..]);
      assert Join(pieces, ",") == tags[0] + "," + ([' '] + rest);
      assert Join(tags, ", ") == tags[0] + ", " + rest;
      CommaSpace(tags[0], rest);
    }
  }

  lemma CommaSpace(a: string, b: string)
    ensures a + "," + ([' '] + b) == a + ", " + b
  {
    assert ", " == [','] + [' '];
  }

  /** None of those pieces holds a comma. */
  lemma SpacedCommaFree(tags: seq<string>)
    requires |tags| >= 1 && Normalized(tags)
    ensures forall p | p in [tags[0]] + Spaced(tags[1..]) :: ',' !in p
  {
    var pieces := [tags[0]] + Spaced(tags[1..]);
    forall i | 0 <= i < |pieces| ensures ',' !in pieces[i] {
      if i > 0 {
        assert pieces[i] == [' '] + tags[i];
      }
    }
  }

  lemma SplitJoinedTags(tags: seq<string>)
    requires |tags| >= 1 && Normalized(tags)
    ensures Split(Join(tags, ", "), ',') == [tags[0]] + Spaced(tags[1..])
  {
    JoinTagsAsPieces(tags);
    SpacedCommaFree(tags);
    SplitJoin([tags[0]] + Spaced(tags[1..]), ',');
  }

  /** Trimming the spaced-out tags gives the tags back. */
  lemma {:induction false} TrimSpaced(tags: seq<string>)
    requires Normalized(tags)
    ensures TrimNonEmpty(Spaced(tags)) == tags
  {
    if tags != [] {
      NormalizedTail(tags);
      TrimSpacedHead(tags);
      TrimSpaced(tags[1..]);
      assert tags == [tags[0]] + tags[1..];
    }
  }

  /** A spaced-out trimmed tag in front comes back as the tag. */
  lemma TrimSpacedHead(tags: seq<string>)
    requires tags != [] && tags[0] != [] && Trim(tags[0]) == tags[0]
    ensures TrimNonEmpty(Spaced(tags)) == [tags[0]] + TrimNonEmpty(Spaced(tags[1..]))
  {
    var tag, rest := tags[0], Spaced(tags[1..]);
    assert Spaced(tags) == [[' '] + tag] + rest;
    var first := [' '] + tag;
    TrimAfterSpace(tag);
    TrimNonEmptyOne(first);
    TrimNonEmptyAppend([first], rest);
  }

  lemma NormalizedTail(tags: seq<string>)
    requires tags != [] && Normalized(tags)
    ensures tags[0] != [] && Trim(tags[0]) == tags[0] && Normalized(tags[1..])
  {
    assert forall i | 0 <= i < |tags| - 1 :: tags[1..][i] == tags[i + 1];
  }

  /**
   * The tag box of an edited task holds `tags.join(', ')`; saving it unchanged
   * stores exactly the same tag list.
   */
  lemma {:induction false} ParseJoinedTags(tags: seq<string>)
    requires Normalized(tags)
    ensures ParseTags(Join(tags, ", ")) == tags
  {
    if tags == [] {
      assert Split([], ',') == [[]];
    } else {
      SplitJoinedTags(tags);
      TrimSpaced(tags[1..]);
      var pieces := [tags[0]] + Spaced(tags[1..]);
      assert pieces[1..] == Spaced(tags[1..]);
      assert tags == [tags[0]] + tags[1..];
    }
  }
}
