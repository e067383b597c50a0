# RandomImages: the saved-photo collection, in Dafny

This project models the service layer of the RandomImages app. The app fetches
the Picsum photo listing and, each time the user asks for one, saves a record
picked at random from it into a local collection. It shows that collection
as a list the user can reorder and prune. The model has five modules, drawn
from three source files:

- **`PhotoModel`** (`photos.dfy`): the `Photos` record, its `CodingKeys` mapping
  from fields to JSON keys, and the derived `thumbnailUrl`.
- **`Codec`** (`codec.dfy`): the JSON coding that `Codable` synthesizes for the
  record from those keys. It is modelled at the level of JSON values, and its
  round trip is proved.
- **`PhotoLists`** (`photo_lists.dfy`): the collection as a value. It holds
  append-if-absent (save), remove-by-id (delete) and
  `move(fromOffsets:toOffset:)` (reorder), with what each of them preserves:
  ids, multiplicities, order and the distinct-id invariant.
- **`Persistence`** (`persistence.dfy`): the `PersistenceService` actor as a
  class. It holds the current value of the published `savedImages` subject, a
  log of every value sent through the subject, and the user-defaults entries
  (key to stored blob). Every mutation overwrites the blob under
  `"SavedPhotoEntries"` and publishes the new list. A ghost call log records
  each call on the service.
- **`ViewModel`** (`view_model.dfy`): `PhotosViewModel`. It models the
  `fetchAndSaveRandomImage` transitions of `isLoading` and `errorMessage`, and
  the single save call it makes. The network result is a parameter: either the
  fetched entries or a thrown error's description. The random pick is a free
  choice of one entry.

Two behaviours of the code shape the model:
- `loadSavedImages` keeps the current list when the key is missing or its blob
  does not decode. It does not reset the list to empty.
- Record equality is the synthesized `Equatable`, which compares all six
  fields. Only identity (`Identifiable`) is the id.

## Model

| member | source | states |
|---|---|---|
| `PhotoModel.KeyFor` | RandomImages/RandomImages/Model/Photos.swift:18-25 | a JSON member name maps to a coding key only if that key's name is exactly this string, and to none when no key has this name |
| `PhotoModel.KeyForStringValue` | RandomImages/RandomImages/Model/Photos.swift:18-25 | every coding key is recovered from its own JSON name |
| `PhotoModel.CodingKeysInjective` | RandomImages/RandomImages/Model/Photos.swift:18-25 | two coding keys share a JSON name only if they are the same key, so the six JSON keys are pairwise distinct |
| `PhotoModel.OnlyDownloadUrlRenamed` | RandomImages/RandomImages/Model/Photos.swift:18-25 | `download_url` is the JSON key of `downloadUrl` and of no other field; every other field's key is one of the five Swift field names `id`, `author`, `width`, `height`, `url` |
| `PhotoModel.ThumbnailUrl` | RandomImages/RandomImages/Model/Photos.swift:28-30 | the address is the Picsum `/id/` prefix, then the id, then `/300/200`, and its length is the sum of the three parts |
| `PhotoModel.ThumbnailUrlDeterminedById` | RandomImages/RandomImages/Model/Photos.swift:28-30 | two records have the same thumbnail address if and only if they have the same id |
| `PhotoModel.EqualityFinerThanId` | RandomImages/RandomImages/Model/Photos.swift:10-16 | equal records have equal ids, and some pair of records with equal ids is not equal |
| `Codec.EncodePhoto` | RandomImages/RandomImages/Model/Photos.swift:10-25 | a record encodes as a JSON object of six members in which each field's value is found under its coding key's JSON name (so `downloadUrl` under `"download_url"`) |
| `Codec.DecodePhoto` | RandomImages/RandomImages/Model/Photos.swift:10-25 | decoding succeeds if and only if the value is an object in which every coding key's JSON name holds a value of the field's type (a string, or a number within `Int`); on success every field of the record is the value found under its key |
| `Codec.DecodeItems` | RandomImages/RandomImages/Services/PersistenceService.swift:58 | array decoding succeeds exactly when every element decodes; the result has one record per element, in order |
| `Codec.DecodeEncodePhoto` | RandomImages/RandomImages/Model/Photos.swift:10-25 | decoding an encoded record gives back that record |
| `Codec.DecodeEncodeList` | RandomImages/RandomImages/Services/PersistenceService.swift:58-66 | decoding an encoded list gives back that list |
| `PhotoLists.PermutationKeepsIds` | RandomImages/RandomImages/Services/PersistenceService.swift:49-53 | lists with the same elements, counted with multiplicity, have the same length and the same ids, and both or neither have distinct ids |
| `PhotoLists.DistinctIdsIffCard` | RandomImages/RandomImages/Services/PersistenceService.swift:39-40 | ids are distinct if and only if there are as many ids as elements |
| `PhotoLists.Saved` | RandomImages/RandomImages/Services/PersistenceService.swift:36-42 | after a save the id is present, the old list is an unchanged prefix, at most one element is added, the id set gains exactly the saved id, and distinct ids stay distinct |
| `PhotoLists.SavedIdempotentById` | RandomImages/RandomImages/Services/PersistenceService.swift:39 | saving any record whose id was just saved changes nothing, so saving twice is saving once |
| `PhotoLists.SavedAppendsFresh` | RandomImages/RandomImages/Services/PersistenceService.swift:36-42 | saving a record with an absent id gives exactly the old list plus the record at the end |
| `PhotoLists.WithoutId` | RandomImages/RandomImages/Services/PersistenceService.swift:44-47 | after a delete no element carries the id, a record is in the result if and only if it was in the list with another id, and the list does not grow |
| `PhotoLists.WithoutIdAppend` | RandomImages/RandomImages/Services/PersistenceService.swift:45 | delete-by-id distributes over concatenation, so the kept elements keep their relative order |
| `PhotoLists.WithoutIdCounts` | RandomImages/RandomImages/Services/PersistenceService.swift:45 | every record with the id has multiplicity 0 afterwards; every other record keeps its multiplicity |
| `PhotoLists.WithoutAbsentId` | RandomImages/RandomImages/Services/PersistenceService.swift:45 | deleting an id that is not present leaves the list unchanged |
| `PhotoLists.WithoutIdKeepsDistinct` | RandomImages/RandomImages/Services/PersistenceService.swift:44-47 | deleting keeps distinct ids distinct |
| `PhotoLists.SaveThenDelete` | RandomImages/RandomImages/Services/PersistenceService.swift:36-47 | saving a record with a fresh id and then deleting that id restores the previous list |
| `PhotoLists.Moved` | RandomImages/RandomImages/Services/PersistenceService.swift:51 | `move(fromOffsets:toOffset:)` returns a permutation of the list: the same elements, counted with multiplicity, and the same length |
| `PhotoLists.KeepLength` | RandomImages/RandomImages/Services/PersistenceService.swift:51 | each block of the moved list holds one element per old offset that falls in it |
| `PhotoLists.KeepAt` | RandomImages/RandomImages/Services/PersistenceService.swift:51 | within a block, the element from old offset i sits at its rank, the number of earlier offsets in the same block, so each block keeps the old order |
| `PhotoLists.MovedPlaces` | RandomImages/RandomImages/Services/PersistenceService.swift:51 | every old element is found in the moved list at its new offset: its rank among the unmoved rows before the destination; or after those, its rank among the moved rows; or after both, its rank among the unmoved rows from the destination on |
| `PhotoLists.MovedOrder` | RandomImages/RandomImages/Services/PersistenceService.swift:51 | the unmoved rows before the destination come first, then the moved rows, then the remaining unmoved rows; each group keeps its old relative order, and distinct old offsets get distinct new offsets |
| `PhotoLists.MovedNothing` | RandomImages/RandomImages/Services/PersistenceService.swift:51 | moving an empty offset set to any valid destination leaves the list unchanged |
| `PhotoLists.MoveOneIsRemoveThenInsert` | RandomImages/RandomImages/Services/PersistenceService.swift:51 | moving one row equals removing it and inserting it just before the element that was at the destination (one place earlier when the row came from above) |
| `PhotoLists.MoveOneInPlace` | RandomImages/RandomImages/Services/PersistenceService.swift:51 | moving a row to its own offset or to the next one changes nothing |
| `PhotoLists.MovedKeepsIds` | RandomImages/RandomImages/Services/PersistenceService.swift:49-53 | reordering keeps the id set, and distinct ids stay distinct |
| `Persistence.StoredAfterWrite` | RandomImages/RandomImages/Services/PersistenceService.swift:56-70 | whatever else the store holds, after the list is written under the key the next load reads back exactly that list |
| `Persistence.PersistenceService.constructor` | RandomImages/RandomImages/Services/PersistenceService.swift:29-34 | a new service keeps the given store, starts with an empty subject and nothing sent, and satisfies the distinct-id invariant |
| `Persistence.PersistenceService.Loaded` | RandomImages/RandomImages/Services/PersistenceService.swift:29-34 | a service that loads before any other call starts with the stored collection (published once and persisted), or empty when nothing decodable is stored |
| `Persistence.PersistenceService.UpdateStorage` | RandomImages/RandomImages/Services/PersistenceService.swift:65-70 | the blob under `"SavedPhotoEntries"` becomes the encoded list and no other entry changes; the list becomes the subject's value and is appended to the values sent |
| `Persistence.PersistenceService.SaveImage` | RandomImages/RandomImages/Services/PersistenceService.swift:36-42 | a present id changes neither list, store nor sent values; an absent id appends the record at the end, writes and publishes; distinct ids and persistence are preserved |
| `Persistence.PersistenceService.DeleteImage` | RandomImages/RandomImages/Services/PersistenceService.swift:44-47 | the list becomes the id-filtered list, which is always written and published; distinct ids are preserved |
| `Persistence.PersistenceService.ReorderImages` | RandomImages/RandomImages/Services/PersistenceService.swift:49-53 | the list becomes the moved list, a permutation with the same ids, which is always written and published; distinct ids are preserved |
| `Persistence.PersistenceService.LoadSavedImages` | RandomImages/RandomImages/Services/PersistenceService.swift:56-62 | the store is only read; with no decodable blob, list and sent values are unchanged; otherwise the decoded list replaces the list and is published; a service whose list was persisted with distinct ids still has distinct ids afterwards |
| `Persistence.EarlySaveOverwritesStored` | RandomImages/RandomImages/Services/PersistenceService.swift:29-42 | with a non-empty collection stored, a save that runs before the scheduled load leaves only the new record in the store, even after the load |
| `Persistence.LoadedSaveKeepsStored` | RandomImages/RandomImages/Services/PersistenceService.swift:29-42 | with the load done first, saving a record with a fresh id stores the old collection with the record appended |
| `ViewModel.PhotosViewModel.constructor` | RandomImages/RandomImages/ViewModel/PhotosViewModel.swift:14-29 | the view model starts not loading, with no error and an empty list, bound to the given service |
| `ViewModel.PhotosViewModel.FetchAndSaveRandomImage` | RandomImages/RandomImages/ViewModel/PhotosViewModel.swift:38-56 | `isLoading` is false on every exit. A thrown error sets its description as the message and leaves the service untouched. An empty listing sets "No images available" and leaves the service untouched. Otherwise the message is nil and the service receives exactly one `saveImage` call, with an element of the listing. The store and sent values are unchanged when that element's id was saved already; otherwise the new list is written and sent once. On every path a store that matched the list still matches it, and distinct ids stay distinct |
| `ViewModel.PhotosViewModel.DeleteImage` | RandomImages/RandomImages/ViewModel/PhotosViewModel.swift:58-60 | exactly one `deleteImage` call with the same id reaches the service, which then holds the filtered list, writes it under the key with the other entries kept, and sends it once; distinct ids stay distinct; no view-model field changes |
| `ViewModel.PhotosViewModel.ReorderImages` | RandomImages/RandomImages/ViewModel/PhotosViewModel.swift:62-64 | exactly one `reorderImages` call with the same offsets reaches the service, which then holds the moved list, writes it under the key with the other entries kept, and sends it once; distinct ids stay distinct; no view-model field changes |

## Left out

- Network access (`URLSession`, the HTTP status check, the listing's
  endpoint): the fetch is a parameter of `FetchAndSaveRandomImage`, either the
  entries or a thrown error's description. The texts of `NetworkError` are not
  modelled.
- JSON text and bytes: `JSONEncoder`/`JSONDecoder` are modelled at the level
  of JSON values. Numbers are integers only. When a key occurs twice, the
  model reads the first member, and it writes a record's members in the
  order the coding keys are declared; both are choices of the model, not
  promises of Foundation.
- String comparison: ids and all other strings are compared code point by
  code point, while Swift's `String ==` compares by canonical Unicode
  equivalence. So `"\u{E9}"` and `"e\u{301}"` are one id to `saveImage` and
  `deleteImage` but two ids to `PhotoLists.Saved` and `PhotoLists.WithoutId`.
  Picsum ids are ASCII digits, where the two comparisons agree.
- `Persistence.PersistenceService.LoadSavedImages`: a stored blob that holds
  two records with one id is loaded as it is, as the source does, so the
  distinct-id invariant is only kept when the store already matched a list
  with distinct ids.
- `UserDefaults`: a map from key to stored JSON value, owned by the service.
  Other code sharing the same store object, and stored values that are not
  data, are not modelled.
- `PersistenceService.UpdateStorage`: the branch where encoding fails is not
  modelled, because a list of records whose fields are all strings and
  integers always encodes. The model always writes.
- Combine: the subject is modelled as its current value plus the list of
  values sent. Subscriptions, and the main-queue binding that copies each
  value into `PhotosViewModel.savedImages`, are asynchronous and not modelled.
  In the model the view model's copy never changes.
- Actor isolation and `async`/`await`: each call runs to completion on its
  own. `init`'s scheduled load is a separate `LoadSavedImages` call. The one
  interleaving modelled is the early save under Findings.
- `randomElement()`: modelled as a free choice of one element. Its uniform
  distribution is not modelled.
- `Persistence.PersistenceService.ReorderImages` and
  `ViewModel.PhotosViewModel.ReorderImages` require offsets that
  `move(fromOffsets:toOffset:)` accepts: every source offset names an element
  and the destination lies between 0 and the count. The list view only passes
  such offsets, and what the library does with others is not modelled.
- `ViewModel.PhotosViewModel.FetchAndSaveRandomImage`: the contract states
  only the flags after the call. The intermediate `isLoading == true` while
  the fetch is awaited is set in the body but cannot be observed in a
  sequential model.
- SwiftUI views, the app entry point and the dependency container are UI
  layout and wiring with no logic. The test mocks are test doubles.

## Findings

| source | as written | input that shows it | evidently intended | confidence | as-written member | corrected member |
|---|---|---|---|---|---|---|
| RandomImages/RandomImages/Services/PersistenceService.swift:29-42 | `init` only schedules `loadSavedImages` in a task. A `saveImage` that reaches the actor first starts from the empty subject value and overwrites the stored blob. | The store holds `[A]`. A new service is created and `saveImage(C)` runs before the scheduled load. The store ends holding `[C]`, A is lost, and the later load reads `[C]`. | Stored records are loaded before any mutation, so the save stores `[A, C]`. | low to medium: it depends on task scheduling; not executed | `Persistence.EarlySaveOverwritesStored` | `Persistence.PersistenceService.Loaded` (with `Persistence.LoadedSaveKeepsStored`) |
