// Lookup by identity in an ordered list of emoji: the `firstIndex(matching:)`
// extension that every intent of EmojiArtDocument uses. The extension itself
// is not part of this model; it is taken to be the usual linear scan for the
// first element whose id equals the argument's id.
module Identity {
  import opened EmojiArtModel

  /** The index of the first emoji of `s` whose id is `id`, or None when there is none. */
  function FirstIndex(s: seq<Emoji>, id: int): (r: Option<nat>)
    ensures r.Some? ==> r.value < |s| && s[r.value].id == id
    ensures r.Some? ==> forall j :: 0 <= j < r.value ==> s[j].id != id
    ensures r.None? ==> forall j :: 0 <= j < |s| ==> s[j].id != id
  {
    if s == [] then None
    else if s[0].id == id then Some(0)
    else match FirstIndex(s[1..], id)
      case None => None
      case Some(i) => Some(i + 1)
  }

  /** The lookup sees nothing but the identities: two lists with the same ids
      in the same order resolve every id to the same index. */
  lemma {:induction false} FirstIndexSeesOnlyIds(s: seq<Emoji>, t: seq<Emoji>, id: int)
    requires Ids(s) == Ids(t)
    ensures FirstIndex(s, id) == FirstIndex(t, id)
  {
    assert |s| == |Ids(s)| == |Ids(t)| == |t|;
    forall j | 0 <= j < |s| ensures s[j].id == t[j].id {
      assert Ids(s)[j] == Ids(t)[j];
    }
  }

  /** With unique ids the element found is the only one carrying that id. */
  lemma FirstIndexIsOnlyMatch(s: seq<Emoji>, id: int, j: nat)
    requires UniqueIds(s)
    requires j < |s| && s[j].id == id
    ensures FirstIndex(s, id) == Some(j)
  {
  }

  /** `firstIndex(matching:)`: scan from the front for the first element with `emoji`'s id. */
  method FirstIndexMatching(s: seq<Emoji>, emoji: Emoji) returns (r: Option<nat>)
    ensures r == FirstIndex(s, emoji.id)
  {
    var k := 0;
    while k < |s|
      invariant 0 <= k <= |s|
      invariant forall j :: 0 <= j < k ==> s[j].id != emoji.id
    {
      if s[k].id == emoji.id {
        return Some(k);
      }
      k := k + 1;
    }
    return None;
  }
}
