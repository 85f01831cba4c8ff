# EmojiArt document model in Dafny

This project models the document controller of the EmojiArt drawing app,
`EmojiArtDocument`. The controller owns one `EmojiArt` value. That value holds
an optional background URL and an ordered list of placed emoji. Each emoji has
an id, a text, an integer position and an integer size. The controller's
intents change that value in place:

- `addEmoji` appends an emoji with a fresh id.
- `moveEmoji` shifts one emoji's position.
- `scaleEmoji` multiplies one emoji's size, rounds half to even and clamps the
  result to [10, 100].
- `removeEmoji` deletes one emoji.
- `setBackgroundUrl` replaces the background reference and clears the cached
  image.

Every intent that names an emoji first looks it up by identity with
`firstIndex(matching:)`. When no element has that id, the intent does nothing.

Files:

- `EmojiArt.dfy` (module `EmojiArtModel`) holds the value model. It defines the
  emoji, the document value, the invariant that ids are unique and no id is
  above the id counter, and the value's `addEmoji`.
- `Identifiable.dfy` (module `Identity`) holds the identity lookup. It has a
  specification function `FirstIndex` and the linear scan
  `FirstIndexMatching`, which is proved equal to it.
- `Rounding.dfy` (module `Rounding`) holds round-half-to-even on an exact
  rational. Its contract alone determines the result (`RoundHalfEvenUnique`).
- `EmojiArtDocument.dfy` (module `Document`) holds the size clamp and
  specification functions for the list after each intent (`Moved`, `Rescaled`,
  `Removed`). It also holds lemmas about them and the class
  `EmojiArtDocument`. Each intent method of the class is proved to leave
  exactly the state its specification function gives, and to keep the
  invariant.

Lookup is a linear scan over the ordered list, as the usual
`firstIndex(matching:)` extension does. The `EmojiArt` struct and the
`firstIndex(matching:)` extension are not part of this model, so both are
given their usual shapes. `EmojiArt.addEmoji` increments a counter
`uniqueEmojiId` stored in the value and appends an emoji carrying the new
counter value as its id. `firstIndex(matching:)` scans for the first element
whose `id` equals the argument's `id`.

The code clamps only when scaling (`EmojiArtDocument.swift:59`) and stores the
size of an added emoji as given (`EmojiArtDocument.swift:45`). The model
follows the code: `AddEmoji` does not clamp, and `AddThenFind` shows the size
stored unchanged.

## Model

| member | source | states |
|---|---|---|
| `EmojiArtModel.AddEmoji` | EmojiArt/EmojiArtDocument.swift:44-46 | appends exactly one emoji after the unchanged old list; its id is above every id the counter handed out before; text, position and size are stored as given, and the size is not clamped; the background is unchanged |
| `EmojiArtModel.AddEmojiKeepsWellFormed` | EmojiArt/EmojiArtDocument.swift:45 | adding to a document whose ids are unique and bounded by the counter keeps both properties |
| `Identity.FirstIndex` | EmojiArt/EmojiArtDocument.swift:49 | the lookup returns an index whose element has the id and before which no element has it; it returns none only when no element has the id |
| `Identity.FirstIndexSeesOnlyIds` | EmojiArt/EmojiArtDocument.swift:49 | two lists with the same ids in the same order resolve every id to the same index |
| `Identity.FirstIndexIsOnlyMatch` | EmojiArt/EmojiArtDocument.swift:49 | with unique ids, any element carrying the id is the one the lookup finds |
| `Identity.FirstIndexMatching` | EmojiArt/EmojiArtDocument.swift:49 | the scan for the first element with the argument's id returns exactly the index `FirstIndex` specifies, or none |
| `Rounding.RoundHalfEven` | EmojiArt/EmojiArtDocument.swift:57 | the result r of rounding n / d has `r * d` within `d / 2` of n, and it is even when n / d lies exactly halfway |
| `Rounding.RoundHalfEvenUnique` | EmojiArt/EmojiArtDocument.swift:57 | any integer that is within half of n / d, and even on a tie, is the rounded value |
| `Rounding.RoundHalfEvenNearest` | EmojiArt/EmojiArtDocument.swift:57 | no integer is strictly nearer to n / d than the rounded value |
| `Rounding.RoundHalfEvenExact` | EmojiArt/EmojiArtDocument.swift:57 | a value that is already an integer is left unchanged by rounding |
| `Document.NormalizeEmojiSize` | EmojiArt/EmojiArtDocument.swift:13-24 | the result always lies in [10, 100], and a size already in that range is returned unchanged |
| `Document.NormalizeIsNearest` | EmojiArt/EmojiArtDocument.swift:16-24 | the clamped size is at least as close to the request as any point of [10, 100], so sizes below give 10 and sizes above give 100 |
| `Document.NormalizeIdempotent` | EmojiArt/EmojiArtDocument.swift:16-24 | clamping twice gives the same size as clamping once |
| `Document.ScaledSize` | EmojiArt/EmojiArtDocument.swift:57-59 | the size stored by scaling always lies in [10, 100]; when the rounded product is in range, the stored size is within half of the exact product |
| `Document.ScaleByOneKeepsSize` | EmojiArt/EmojiArtDocument.swift:57-59 | scaling a size in [10, 100] by exactly one returns that size |
| `Document.ScaledSizeExamples` | EmojiArt/EmojiArtDocument.swift:57-59 | 95 by 2 gives 100, not 190; 41 by 1.5 gives 62; 30 by 1.5 gives 45; 11 by 1.5 gives the even 16; 3 by 2 is clamped up to 10 |
| `Document.Moved` | EmojiArt/EmojiArtDocument.swift:48-53 | when the id is missing, the list is unchanged; otherwise only the first element with the id changes, gaining the offset in x and y and keeping its id, text and size; the length and the ids are unchanged |
| `Document.MoveThenMoveBack` | EmojiArt/EmojiArtDocument.swift:50-51 | moving by an offset and then by its opposite restores the list |
| `Document.MovesCompose` | EmojiArt/EmojiArtDocument.swift:50-51 | two moves of the same emoji equal one move by the summed offset |
| `Document.Rescaled` | EmojiArt/EmojiArtDocument.swift:55-61 | when the id is missing, the list is unchanged; otherwise only the first element with the id changes; its size becomes the rounded, clamped product and lies in [10, 100]; its id, text and position are kept; the length and ids are unchanged |
| `Document.RescaleByOneIsNoOp` | EmojiArt/EmojiArtDocument.swift:55-61 | scaling by exactly one changes nothing when the matched emoji's size is in [10, 100] |
| `Document.Removed` | EmojiArt/EmojiArtDocument.swift:63-67 | when the id is missing, the list is unchanged; otherwise the length drops by one; elements before the first match stay in place, and those after it move down by one in the same order |
| `Document.RemovedIsPermutationMinusOne` | EmojiArt/EmojiArtDocument.swift:65 | the removed list plus the element found is the old list as a multiset |
| `Document.RemoveEliminatesId` | EmojiArt/EmojiArtDocument.swift:63-67 | with unique ids, no element carries the id after removal |
| `Document.MissingIdIsNoOp` | EmojiArt/EmojiArtDocument.swift:48-67 | move, scale and remove all leave the list exactly as it was when no element has the id |
| `Document.IntentsKeepWellFormed` | EmojiArt/EmojiArtDocument.swift:48-67 | move, scale and remove keep the ids unique and no id above the counter |
| `Document.AddThenFind` | EmojiArt/EmojiArtDocument.swift:44-46 | after an add, looking up the new id finds the new last element, which holds the given text, position and unclamped size |
| `Document.EmojiArtDocument.constructor` | EmojiArt/EmojiArtDocument.swift:32-35 | the document starts with the decoded stored value, or the empty value when nothing was decoded; no background image is loaded yet |
| `Document.EmojiArtDocument.Emojis` | EmojiArt/EmojiArtDocument.swift:41 | returns the current ordered emoji list, whose ids are unique while the document invariant holds |
| `Document.EmojiArtDocument.AddEmoji` | EmojiArt/EmojiArtDocument.swift:44-46 | the new value is the value model's add applied to the old value; the image is kept; the invariant is preserved; looking up the new id then finds the new last emoji |
| `Document.EmojiArtDocument.MoveEmoji` | EmojiArt/EmojiArtDocument.swift:48-53 | after the scan, the new list is `Moved` of the old one; the background and image are kept; the invariant is preserved |
| `Document.EmojiArtDocument.ScaleEmoji` | EmojiArt/EmojiArtDocument.swift:55-61 | after the scan, the new list is `Rescaled` of the old one; the background and image are kept; the invariant is preserved |
| `Document.EmojiArtDocument.RemoveEmoji` | EmojiArt/EmojiArtDocument.swift:63-67 | after the scan, the new list is `Removed` of the old one; the background and image are kept; the invariant is preserved, and then no emoji carries the removed id |
| `Document.EmojiArtDocument.SetBackgroundUrl` | EmojiArt/EmojiArtDocument.swift:69-72 | only the background URL changes, to the resolved URL or to none; the emoji list and counter are untouched; the cached image is cleared |
| `Document.EmojiArtDocument.BackgroundImageFetched` | EmojiArt/EmojiArtDocument.swift:79-83 | a fetched image is published only if its URL is still the document's background; otherwise the image is unchanged |
| `Document.LastRequestedFetchWins` | EmojiArt/EmojiArtDocument.swift:74-87 | with backgrounds A then B requested, and A's fetch completing after B's, the background is B, the document shows B's image, and the emoji are untouched |

## Left out

- Persistence: the `didSet` write to `UserDefaults` and the read in `init` are platform key-value I/O. JSON encoding lives in the `EmojiArt` struct, which is not part of this model, so no encode/decode round trip is stated. The constructor takes the decoded value, or none, as a parameter.
- Document.EmojiArtDocument.constructor: a stored value is not checked for unique ids, because the source does not check it either. The invariant is therefore guaranteed only for the empty document.
- Dispatch queues in `fetchBackgroundImageData`: the model keeps only the synchronous clear of the image and the completion guard, as `BackgroundImageFetched`. Reading the data and decoding the `UIImage` become the `image` parameter, and a failed read becomes a completion that never happens.
- `URL.imageURL` is a foreign helper. It is passed to `SetBackgroundUrl` as the function parameter `imageUrl`.
- Floating point: the location, the size and the offset reach the model already truncated to integers, which covers `Int(...)` at lines 45 and 50-51. The `fontSize` and `location` extension at lines 90-93 converts back to floating point and is not modelled.
- Document.ScaledSize: the `CGFloat` scale factor is an exact rational `num / den`, so the rounding error of a binary floating-point product is not modelled.
- Swift's trapping on `Int` overflow (`+=` at lines 50-51, `Int(...)` at line 57) is not modelled, because integers here are unbounded.
- Observation: `@Published` change notification has no effect on the modelled state.
- The `pallete` constant (line 11) is display data used only by views.
- Every other file of the app is SwiftUI or UIKit view code with no document logic.
