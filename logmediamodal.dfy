/** The logging form (src/features/journal/components/LogMediaModal.tsx):
    the form's state, the tag field parsed on submit, and the rating
    buttons, where clicking the selected rating clears it. Rendering and
    the input handlers, which only store what is typed, are not modelled. */
module LogMediaModal {
  import opened Wrappers
  import opened Text
  import opened Media
  import opened Sorting

  /** The ratings offered, one button each. */
  const RATING_VALUES: seq<int> := [1, 2, 3, 4, 5, 6, 7, 8, 9, 10]

  /** The buttons are the whole numbers 1 to 10, in order. */
  lemma RatingValuesExact()
    ensures |RATING_VALUES| == 10
    ensures forall i :: 0 <= i < |RATING_VALUES| ==> RATING_VALUES[i] == i + 1
    ensures forall v :: v in RATING_VALUES <==> 1 <= v <= 10
  {
    forall v | 1 <= v <= 10 ensures v in RATING_VALUES {
      assert RATING_VALUES[v - 1] == v;
    }
  }

  predicate NonEmpty(t: string) {
    t != ""
  }

  function TrimPiece(t: string): string {
    Trim(t)
  }

  /** `tagsInput.split(',').map((t) => t.trim()).filter(Boolean)`. */
  function ParseTags(input: string): seq<string> {
    Filter(MapSeq(Split(input, ','), TrimPiece), NonEmpty)
  }

  /** Each trimmed piece is the trim of the piece at the same place. */
  lemma TrimmedPieces(parts: seq<string>)
    ensures |MapSeq(parts, TrimPiece)| == |parts|
    ensures forall i :: 0 <= i < |parts| ==> MapSeq(parts, TrimPiece)[i] == Trim(parts[i])
  {
    forall i | 0 <= i < |parts| ensures MapSeq(parts, TrimPiece)[i] == Trim(parts[i]) {
      MapSeqAt(parts, TrimPiece, i);
    }
  }

  /** Trimming never brings in a comma. */
  lemma TrimKeepsNoComma(p: string)
    requires ',' !in p
    ensures ',' !in Trim(p)
  {
    var t, a := Trim(p), LeadingSpace(p);
    assert t == p[a..a + |t|];
    forall i | 0 <= i < |t| ensures t[i] != ',' {
      assert t[i] == p[a + i];
    }
  }

  /** The trim of a piece without a comma, when not blank, is a clean tag. */
  lemma CleanPiece(p: string)
    requires ',' !in p && Trim(p) != ""
    ensures var t := Trim(p);
      !IsWhitespace(t[0]) && !IsWhitespace(t[|t| - 1]) && Trim(t) == t && ',' !in t
  {
    TrimKeepsNoComma(p);
    TrimFixedPoint(Trim(p));
  }

  /** A parsed tag is non-empty, without white space at either end and without a comma. */
  lemma {:induction false} ParsedTagsClean(input: string)
    ensures forall i :: 0 <= i < |ParseTags(input)| ==>
      var t := ParseTags(input)[i];
      t != "" && !IsWhitespace(t[0]) && !IsWhitespace(t[|t| - 1]) && Trim(t) == t && ',' !in t
  {
    var parts := Split(input, ',');
    var trimmed := MapSeq(parts, TrimPiece);
    TrimmedPieces(parts);
    var tags := ParseTags(input);
    forall i | 0 <= i < |tags|
      ensures tags[i] != "" && !IsWhitespace(tags[i][0]) && !IsWhitespace(tags[i][|tags[i]| - 1])
      ensures Trim(tags[i]) == tags[i] && ',' !in tags[i]
    {
      var j :| 0 <= j < |trimmed| && trimmed[j] == tags[i];
      assert parts[j] in parts;
      assert tags[i] == Trim(parts[j]);
      CleanPiece(parts[j]);
    }
  }

  lemma PieceOfTag(parts: seq<string>, t: string)
    requires t in Filter(MapSeq(parts, TrimPiece), NonEmpty)
    ensures exists p :: p in parts && Trim(p) == t
  {
    TrimmedPieces(parts);
    var trimmed := MapSeq(parts, TrimPiece);
    var j :| 0 <= j < |trimmed| && trimmed[j] == t;
    assert parts[j] in parts;
  }

  lemma TagOfPiece(parts: seq<string>, t: string)
    requires t != "" && exists p :: p in parts && Trim(p) == t
    ensures t in Filter(MapSeq(parts, TrimPiece), NonEmpty)
  {
    TrimmedPieces(parts);
    var p :| p in parts && Trim(p) == t;
    var i :| 0 <= i < |parts| && parts[i] == p;
    assert MapSeq(parts, TrimPiece)[i] == t;
  }

  /** At most one tag per piece, and a tag is parsed exactly when some
      non-blank piece trims to it. */
  lemma {:induction false} ParsedTagsFromPieces(input: string)
    ensures |ParseTags(input)| <= CountChar(input, ',') + 1
    ensures forall t :: t in ParseTags(input) <==> t != "" && exists p :: p in Split(input, ',') && Trim(p) == t
  {
    var parts := Split(input, ',');
    var trimmed := MapSeq(parts, TrimPiece);
    TrimmedPieces(parts);
    forall t | t in ParseTags(input) ensures exists p :: p in parts && Trim(p) == t {
      PieceOfTag(parts, t);
    }
    forall t | t != "" && exists p :: p in parts && Trim(p) == t ensures t in ParseTags(input) {
      TagOfPiece(parts, t);
    }
  }

  /** Trimming pieces that are already trimmed changes nothing. */
  lemma {:induction false} TrimTrimmed(tags: seq<string>)
    requires forall i :: 0 <= i < |tags| ==> Trim(tags[i]) == tags[i]
    ensures MapSeq(tags, TrimPiece) == tags
  {
    if tags != [] {
      TrimTrimmed(tags[1..]);
    }
  }

  /** The empty field holds no tags. */
  lemma NoTagsInEmptyField()
    ensures ParseTags("") == []
  {
    assert Split("", ',') == [""];
    assert MapSeq([""], TrimPiece) == [Trim("")];
  }

  /** A tag list as the form produces it survives being written back into
      the field with commas: parsing the joined tags gives the same tags, in
      the same order. */
  lemma ParseJoinedTags(tags: seq<string>)
    requires forall i :: 0 <= i < |tags| ==> tags[i] != "" && Trim(tags[i]) == tags[i] && ',' !in tags[i]
    ensures ParseTags(Join(tags, ',')) == tags
  {
    if tags == [] {
      NoTagsInEmptyField();
    } else {
      SplitJoin(tags, ',');
      TrimTrimmed(tags);
    }
  }

  /** `setRating(rating === value ? null : value)`. */
  function ToggleRating(current: Option<int>, value: int): (r: Option<int>)
    ensures r.None? <==> current == Some(value)
    ensures r.Some? ==> r.value == value
  {
    if current == Some(value) then None else Some(value)
  }

  /** Clicking an offered button keeps the rating valid, and clicking the
      same button twice clears the rating unless it was selected before. */
  lemma ToggleRatingFacts(current: Option<int>, value: int)
    ensures value in RATING_VALUES && ValidRating(current) ==> ValidRating(ToggleRating(current, value))
    ensures ToggleRating(ToggleRating(current, value), value) == if current == Some(value) then current else None
  {
    RatingValuesExact();
  }

  /** The form of one media item. */
  class LogForm {
    const media: NormalizedMedia
    var consumedAt: string
    var rating: Option<int>
    var note: string
    var tagsInput: string
    var isRewatch: bool

    /** The form opens dated today (the date part of the ISO time stamp
        `nowIso`), unrated, with an empty note and tags, not a rewatch. */
    constructor (media: NormalizedMedia, nowIso: string)
      ensures this.media == media
      ensures consumedAt == Split(nowIso, 'T')[0]
      ensures rating == None && note == "" && tagsInput == "" && !isRewatch
    {
      this.media := media;
      consumedAt := Split(nowIso, 'T')[0];
      rating := None;
      note := "";
      tagsInput := "";
      isRewatch := false;
    }

    /** A click on the rating button `value`; nothing else in the form changes. */
    method ClickRating(value: int)
      modifies this
      ensures rating == ToggleRating(old(rating), value)
      ensures consumedAt == old(consumedAt) && note == old(note) && tagsInput == old(tagsInput) && isRewatch == old(isRewatch)
    {
      rating := ToggleRating(rating, value);
    }

    /** `handleSubmit`: what is handed to `onSubmit` is the form's date,
        rating, note and rewatch flag as they stand, with the tags parsed. */
    method Submit() returns (data: EntryData)
      ensures data.consumedAt == consumedAt && data.rating == rating && data.note == note && data.isRewatch == isRewatch
      ensures data.tags == ParseTags(tagsInput)
      ensures forall i :: 0 <= i < |data.tags| ==> data.tags[i] != "" && Trim(data.tags[i]) == data.tags[i]
    {
      ParsedTagsClean(tagsInput);
      data := EntryData(consumedAt, rating, note, ParseTags(tagsInput), isRewatch);
    }
  }
}
