// The document value that EmojiArtDocument wraps: an optional background
// reference and the ordered list of placed emoji. The Swift `EmojiArt` struct
// itself is not part of this model; its addEmoji is given the usual
// shape of that struct: draw a fresh id from a counter kept in the value, then
// append.
module EmojiArtModel {

  datatype Option<T> = None | Some(value: T)

  /** A reference to an external image resource; only assigned and compared. */
  type Url = string

  /** One placed emoji: identity, the rendered text, an integer position and an integer point size. */
  datatype Emoji = Emoji(id: int, text: string, x: int, y: int, size: int)

  /** The document value. `uniqueEmojiId` is the last id handed out by AddEmoji. */
  datatype EmojiArt = EmojiArt(backgroundURL: Option<Url>, emojis: seq<Emoji>, uniqueEmojiId: int)

  /** `EmojiArt()`: no background, no emoji, no id handed out yet. */
  const Empty: EmojiArt := EmojiArt(None, [], 0)

  /** The identities of a list of emoji, in order. */
  function Ids(s: seq<Emoji>): (r: seq<int>)
  {
    seq(|s|, i requires 0 <= i < |s| => s[i].id)
  }

  /** No two emoji of the list share an identity. */
  predicate UniqueIds(s: seq<Emoji>)
  {
    forall i, j :: 0 <= i < j < |s| ==> s[i].id != s[j].id
  }

  /** The document invariant: identities are unique, and none is above the
      counter, so the next id the counter hands out is fresh. */
  predicate WellFormed(art: EmojiArt)
  {
    && UniqueIds(art.emojis)
    && forall i :: 0 <= i < |art.emojis| ==> art.emojis[i].id <= art.uniqueEmojiId
  }

  /** `EmojiArt.addEmoji`: append a new emoji with a fresh id; the size is
      stored as given, without clamping. */
  function AddEmoji(art: EmojiArt, text: string, x: int, y: int, size: int): (r: EmojiArt)
    ensures r.backgroundURL == art.backgroundURL
    ensures |r.emojis| == |art.emojis| + 1 && r.emojis[..|art.emojis|] == art.emojis
    ensures r.emojis[|art.emojis|] == Emoji(r.uniqueEmojiId, text, x, y, size)
    ensures r.uniqueEmojiId > art.uniqueEmojiId
  {
    var id := art.uniqueEmojiId + 1;
    art.(emojis := art.emojis + [Emoji(id, text, x, y, size)], uniqueEmojiId := id)
  }

  /** Adding keeps identities unique: the new id is above every id already present. */
  lemma AddEmojiKeepsWellFormed(art: EmojiArt, text: string, x: int, y: int, size: int)
    requires WellFormed(art)
    ensures WellFormed(AddEmoji(art, text, x, y, size))
  {
    var r := AddEmoji(art, text, x, y, size);
    var n := |art.emojis|;
    forall i, j | 0 <= i < j < |r.emojis| ensures r.emojis[i].id != r.emojis[j].id {
      assert r.emojis[i] == art.emojis[i];
      if j < n {
        assert r.emojis[j] == art.emojis[j];
      }
    }
  }
}
