// The document controller: it owns one EmojiArt value and changes it in place
// through its intents (add, move, scale, remove, set background). Each intent
// that names an emoji first finds it by identity and silently does nothing when
// no element has that id.
module Document {
  import opened EmojiArtModel
  import opened Identity
  import opened Rounding

  const MinEmojiSize: int := 10
  const MaxEmojiSize: int := 100

  /** Clamp a size to [MinEmojiSize, MaxEmojiSize]. */
  function NormalizeEmojiSize(size: int): (r: int)
    ensures MinEmojiSize <= r <= MaxEmojiSize
    ensures MinEmojiSize <= size <= MaxEmojiSize ==> r == size
  {
    if size < MinEmojiSize then MinEmojiSize
    else if size > MaxEmojiSize then MaxEmojiSize
    else size
  }

  /** The clamped size is the point of the range nearest to the requested one. */
  lemma NormalizeIsNearest(size: int, v: int)
    requires MinEmojiSize <= v <= MaxEmojiSize
    ensures Abs(NormalizeEmojiSize(size) - size) <= Abs(v - size)
  {
  }

  /** Clamping twice is clamping once. */
  lemma NormalizeIdempotent(size: int)
    ensures NormalizeEmojiSize(NormalizeEmojiSize(size)) == NormalizeEmojiSize(size)
  {
  }

  /** A scale factor, a positive or negative real taken as the exact rational num / den. */
  datatype Scale = Scale(num: int, den: Positive)

  /** The size `scaleEmoji` stores: size times the factor, rounded half to even, then clamped. */
  function ScaledSize(size: int, scale: Scale): (r: int)
    ensures MinEmojiSize <= r <= MaxEmojiSize
    ensures var raw := RoundHalfEven(size * scale.num, scale.den);
      MinEmojiSize <= raw <= MaxEmojiSize ==> 2 * Abs(r * scale.den - size * scale.num) <= scale.den
  {
    NormalizeEmojiSize(RoundHalfEven(size * scale.num, scale.den))
  }

  /** Scaling by exactly one leaves a size already in range as it is. */
  lemma ScaleByOneKeepsSize(size: int, scale: Scale)
    requires scale.num == scale.den
    requires MinEmojiSize <= size <= MaxEmojiSize
    ensures ScaledSize(size, scale) == size
  {
    RoundHalfEvenExact(size, scale.den);
  }

  /** Worked cases: 95 by 2 clamps to 100; 41 by 1.5 is 61.5, which rounds to
      the even 62; 30 by 1.5 is exactly 45; 11 by 1.5 is 16.5, which rounds to
      the even 16; 3 by 2 gives 6, clamped up to 10. */
  lemma ScaledSizeExamples()
    ensures ScaledSize(95, Scale(2, 1)) == 100
    ensures ScaledSize(41, Scale(3, 2)) == 62
    ensures ScaledSize(30, Scale(3, 2)) == 45
    ensures ScaledSize(11, Scale(3, 2)) == 16
    ensures ScaledSize(3, Scale(2, 1)) == 10
  {
  }

  /** The emoji list after `moveEmoji`: the first emoji with `id` is shifted by
      (dx, dy); nothing else changes. */
  function Moved(s: seq<Emoji>, id: int, dx: int, dy: int): (r: seq<Emoji>)
    ensures |r| == |s| && Ids(r) == Ids(s)
    ensures FirstIndex(s, id).None? ==> r == s
    ensures FirstIndex(s, id).Some? ==>
      var i := FirstIndex(s, id).value;
      && r[i].x == s[i].x + dx && r[i].y == s[i].y + dy
      && r[i].id == s[i].id && r[i].text == s[i].text && r[i].size == s[i].size
      && forall j :: 0 <= j < |s| && j != i ==> r[j] == s[j]
  {
    match FirstIndex(s, id)
    case None => s
    case Some(i) => s[i := s[i].(x := s[i].x + dx, y := s[i].y + dy)]
  }

  /** Moving back by the opposite offset restores the list. */
  lemma MoveThenMoveBack(s: seq<Emoji>, id: int, dx: int, dy: int)
    ensures Moved(Moved(s, id, dx, dy), id, -dx, -dy) == s
  {
    FirstIndexSeesOnlyIds(Moved(s, id, dx, dy), s, id);
  }

  /** Two moves of the same emoji add up to one move by the summed offset. */
  lemma MovesCompose(s: seq<Emoji>, id: int, dx1: int, dy1: int, dx2: int, dy2: int)
    ensures Moved(Moved(s, id, dx1, dy1), id, dx2, dy2) == Moved(s, id, dx1 + dx2, dy1 + dy2)
  {
    FirstIndexSeesOnlyIds(Moved(s, id, dx1, dy1), s, id);
  }

  /** The emoji list after `scaleEmoji`: the first emoji with `id` gets the
      scaled, rounded and clamped size; nothing else changes. */
  function Rescaled(s: seq<Emoji>, id: int, scale: Scale): (r: seq<Emoji>)
    ensures |r| == |s| && Ids(r) == Ids(s)
    ensures FirstIndex(s, id).None? ==> r == s
    ensures FirstIndex(s, id).Some? ==>
      var i := FirstIndex(s, id).value;
      && MinEmojiSize <= r[i].size <= MaxEmojiSize
      && r[i].size == ScaledSize(s[i].size, scale)
      && r[i].id == s[i].id && r[i].text == s[i].text && r[i].x == s[i].x && r[i].y == s[i].y
      && forall j :: 0 <= j < |s| && j != i ==> r[j] == s[j]
  {
    match FirstIndex(s, id)
    case None => s
    case Some(i) => s[i := s[i].(size := ScaledSize(s[i].size, scale))]
  }

  /** Scaling by one leaves the list as it is when the matched emoji's size is already in range. */
  lemma RescaleByOneIsNoOp(s: seq<Emoji>, id: int, scale: Scale)
    requires scale.num == scale.den
    requires FirstIndex(s, id).Some? ==> MinEmojiSize <= s[FirstIndex(s, id).value].size <= MaxEmojiSize
    ensures Rescaled(s, id, scale) == s
  {
    match FirstIndex(s, id)
    case None =>
    case Some(i) => ScaleByOneKeepsSize(s[i].size, scale);
  }

  /** The emoji list after `removeEmoji`: the first emoji with `id` is taken
      out and the others keep their relative order. */
  function Removed(s: seq<Emoji>, id: int): (r: seq<Emoji>)
    ensures FirstIndex(s, id).None? ==> r == s
    ensures FirstIndex(s, id).Some? ==>
      var i := FirstIndex(s, id).value;
      && |r| == |s| - 1
      && (forall j :: 0 <= j < i ==> r[j] == s[j])
      && (forall j :: i <= j < |r| ==> r[j] == s[j + 1])
  {
    match FirstIndex(s, id)
    case None => s
    case Some(i) => s[..i] + s[i + 1..]
  }

  /** Removal loses exactly the element found and nothing else. */
  lemma RemovedIsPermutationMinusOne(s: seq<Emoji>, id: int)
    requires FirstIndex(s, id).Some?
    ensures multiset(Removed(s, id)) + multiset{s[FirstIndex(s, id).value]} == multiset(s)
  {
    var i := FirstIndex(s, id).value;
    var before, after := s[..i], s[i + 1..];
    assert Removed(s, id) == before + after;
    assert s == before + [s[i]] + after;
    calc {
      multiset(s);
      multiset(before) + multiset{s[i]} + multiset(after);
      multiset(before + after) + multiset{s[i]};
    }
  }

  /** With unique ids, after removal no element carries the id any more. */
  lemma RemoveEliminatesId(s: seq<Emoji>, id: int)
    requires UniqueIds(s)
    ensures FirstIndex(Removed(s, id), id).None?
  {
    match FirstIndex(s, id)
    case None =>
    case Some(i) =>
      var r := Removed(s, id);
      forall j | 0 <= j < |r| ensures r[j].id != id {
        if j >= i {
          assert r[j] == s[j + 1];
        }
      }
  }

  /** An id no element carries leaves all three lookups-then-update intents without effect. */
  lemma MissingIdIsNoOp(s: seq<Emoji>, id: int, dx: int, dy: int, scale: Scale)
    requires forall j :: 0 <= j < |s| ==> s[j].id != id
    ensures Moved(s, id, dx, dy) == s
    ensures Rescaled(s, id, scale) == s
    ensures Removed(s, id) == s
  {
  }

  /** Every intent keeps the document invariant (unique ids, all at most the counter). */
  lemma IntentsKeepWellFormed(art: EmojiArt, id: int, dx: int, dy: int, scale: Scale)
    requires WellFormed(art)
    ensures WellFormed(art.(emojis := Moved(art.emojis, id, dx, dy)))
    ensures WellFormed(art.(emojis := Rescaled(art.emojis, id, scale)))
    ensures WellFormed(art.(emojis := Removed(art.emojis, id)))
  {
  }

  /** Add-then-find: the id AddEmoji hands out resolves to the new, last
      element, which holds exactly the given text, position and unclamped size. */
  lemma AddThenFind(art: EmojiArt, text: string, x: int, y: int, size: int)
    requires WellFormed(art)
    ensures var r := EmojiArtModel.AddEmoji(art, text, x, y, size);
      && FirstIndex(r.emojis, r.uniqueEmojiId) == Some(|art.emojis|)
      && r.emojis[|art.emojis|] == Emoji(r.uniqueEmojiId, text, x, y, size)
  {
    var r := EmojiArtModel.AddEmoji(art, text, x, y, size);
    AddEmojiKeepsWellFormed(art, text, x, y, size);
    FirstIndexIsOnlyMatch(r.emojis, r.uniqueEmojiId, |art.emojis|);
  }

  /** A decoded image, kept opaque. */
  type Image = seq<bv8>

  class EmojiArtDocument {
    var emojiArt: EmojiArt
    var backgroundImage: Option<Image>

    ghost predicate Valid()
      reads this
    {
      WellFormed(emojiArt)
    }

    /** `init()`: the value decoded from storage, or a fresh empty one when
        nothing could be decoded; no background image is loaded yet. */
    constructor (stored: Option<EmojiArt>)
      ensures emojiArt == (if stored.Some? then stored.value else Empty)
      ensures backgroundImage == None
      ensures stored.None? ==> Valid()
    {
      emojiArt := if stored.Some? then stored.value else Empty;
      backgroundImage := None;
    }

    /** The current ordered list of placed emoji. */
    function Emojis(): (r: seq<Emoji>)
      reads this
      ensures Valid() ==> UniqueIds(r)
    {
      emojiArt.emojis
    }

    method AddEmoji(text: string, x: int, y: int, size: int)
      modifies this
      ensures emojiArt == EmojiArtModel.AddEmoji(old(emojiArt), text, x, y, size)
      ensures backgroundImage == old(backgroundImage)
      ensures old(Valid()) ==> Valid()
      ensures old(Valid()) ==> FirstIndex(Emojis(), emojiArt.uniqueEmojiId) == Some(|old(Emojis())|)
    {
      if Valid() {
        AddEmojiKeepsWellFormed(emojiArt, text, x, y, size);
        AddThenFind(emojiArt, text, x, y, size);
      }
      emojiArt := EmojiArtModel.AddEmoji(emojiArt, text, x, y, size);
    }

    method MoveEmoji(emoji: Emoji, dx: int, dy: int)
      modifies this
      ensures emojiArt == old(emojiArt).(emojis := Moved(old(Emojis()), emoji.id, dx, dy))
      ensures backgroundImage == old(backgroundImage)
      ensures old(Valid()) ==> Valid()
    {
      if Valid() {
        IntentsKeepWellFormed(emojiArt, emoji.id, dx, dy, Scale(1, 1));
      }
      var index := FirstIndexMatching(emojiArt.emojis, emoji);
      if index.Some? {
        var i := index.value;
        var e := emojiArt.emojis[i];
        emojiArt := emojiArt.(emojis := emojiArt.emojis[i := e.(x := e.x + dx, y := e.y + dy)]);
      }
    }

    method ScaleEmoji(emoji: Emoji, scale: Scale)
      modifies this
      ensures emojiArt == old(emojiArt).(emojis := Rescaled(old(Emojis()), emoji.id, scale))
      ensures backgroundImage == old(backgroundImage)
      ensures old(Valid()) ==> Valid()
    {
      if Valid() {
        IntentsKeepWellFormed(emojiArt, emoji.id, 0, 0, scale);
      }
      var index := FirstIndexMatching(emojiArt.emojis, emoji);
      if index.Some? {
        var i := index.value;
        var e := emojiArt.emojis[i];
        var newSize := RoundHalfEven(e.size * scale.num, scale.den);
        emojiArt := emojiArt.(emojis := emojiArt.emojis[i := e.(size := NormalizeEmojiSize(newSize))]);
      }
    }

    method RemoveEmoji(emoji: Emoji)
      modifies this
      ensures emojiArt == old(emojiArt).(emojis := Removed(old(Emojis()), emoji.id))
      ensures backgroundImage == old(backgroundImage)
      ensures old(Valid()) ==> Valid()
      ensures old(Valid()) ==> FirstIndex(Emojis(), emoji.id).None?
    {
      if Valid() {
        IntentsKeepWellFormed(emojiArt, emoji.id, 0, 0, Scale(1, 1));
        RemoveEliminatesId(emojiArt.emojis, emoji.id);
      }
      var index := FirstIndexMatching(emojiArt.emojis, emoji);
      if index.Some? {
        var i := index.value;
        emojiArt := emojiArt.(emojis := emojiArt.emojis[..i] + emojiArt.emojis[i + 1..]);
      }
    }

    /** `setBackgroundUrl`: store the url as resolved by `imageUrl` (the
        `imageURL` rewrite), then clear the cached image as the fetch it
        starts does before going off the main queue. The emoji are untouched. */
    method SetBackgroundUrl(url: Option<Url>, imageUrl: Url -> Url)
      modifies this
      ensures Emojis() == old(Emojis()) && emojiArt.uniqueEmojiId == old(emojiArt.uniqueEmojiId)
      ensures emojiArt.backgroundURL == if url.Some? then Some(imageUrl(url.value)) else None
      ensures backgroundImage == None
      ensures old(Valid()) ==> Valid()
    {
      var resolved := match url case Some(u) => Some(imageUrl(u)) case None => None;
      emojiArt := emojiArt.(backgroundURL := resolved);
      backgroundImage := None;
    }

    /** The completion of a background fetch for `url` on the main queue: the
        image is published only if `url` is still the document's background. */
    method BackgroundImageFetched(url: Url, image: Option<Image>)
      modifies this`backgroundImage
      ensures backgroundImage == if emojiArt.backgroundURL == Some(url) then image else old(backgroundImage)
    {
      if emojiArt.backgroundURL == Some(url) {
        backgroundImage := image;
      }
    }
  }

  /** Fetch supersession: with backgrounds A then B requested, and A's fetch
      finishing after B's has been published, the document shows B's image. */
  method LastRequestedFetchWins(doc: EmojiArtDocument, a: Url, b: Url, imageUrl: Url -> Url,
                                imageA: Option<Image>, imageB: Option<Image>)
    requires imageUrl(a) != imageUrl(b)
    modifies doc
    ensures doc.emojiArt.backgroundURL == Some(imageUrl(b))
    ensures doc.backgroundImage == imageB
    ensures doc.Emojis() == old(doc.Emojis())
  {
    doc.SetBackgroundUrl(Some(a), imageUrl);
    doc.SetBackgroundUrl(Some(b), imageUrl);
    doc.BackgroundImageFetched(imageUrl(b), imageB);
    doc.BackgroundImageFetched(imageUrl(a), imageA);
  }
}
