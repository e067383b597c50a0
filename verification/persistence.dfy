/** The persistence service: the saved collection held in memory, mirrored as
    one JSON blob under a fixed key of the user-defaults store, and published
    to observers on every change. */
module Persistence {
  import opened PhotoModel
  import opened Codec
  import opened PhotoLists

  /** The one user-defaults key the service writes. */
  const Key: string := "SavedPhotoEntries"

  /** A call made on the service; the ghost call log lets callers state how
      often, and with what, they called it. */
  datatype Call =
    | SaveImageCall(image: Photos)
    | DeleteImageCall(id: string)
    | ReorderImagesCall(source: set<int>, destination: int)
    | LoadSavedImagesCall

  /** The collection `loadSavedImages` reads: present only when the key holds
      a blob that decodes as a list of records. */
  function StoredImages(userDefaults: map<string, Json>): Option<seq<Photos>>
  {
    if Key in userDefaults then DecodeList(userDefaults[Key]) else None
  }

  /** Whatever else the store holds, after the service writes a list under
      its key the next load reads back exactly that list. */
  lemma StoredAfterWrite(userDefaults: map<string, Json>, xs: seq<Photos>)
    ensures StoredImages(userDefaults[Key := EncodeList(xs)]) == Some(xs)
  {
    DecodeEncodeList(xs);
  }

  class PersistenceService {
    /** The current value of the `savedImages` subject. */
    var savedImages: seq<Photos>
    /** Every value sent through the subject, oldest first. */
    var sent: seq<seq<Photos>>
    /** The user-defaults entries, key to stored blob. */
    var userDefaults: map<string, Json>
    ghost var calls: seq<Call>

    /** The blob under the key reads back as the current list. */
    predicate Persisted()
      reads this
    {
      StoredImages(userDefaults) == Some(savedImages)
    }

    /** The saved collection's invariant: no id twice. */
    predicate Valid()
      reads this
    {
      DistinctIds(savedImages)
    }

    /** `init(userDefaults:)`: the subject starts out empty. The load it
        schedules runs later, as a separate `LoadSavedImages` call. */
    constructor (userDefaults: map<string, Json>)
      ensures this.userDefaults == userDefaults
      ensures savedImages == [] && sent == [] && calls == []
      ensures Valid()
    {
      this.userDefaults := userDefaults;
      savedImages := [];
      sent := [];
      calls := [];
    }

    /** A service that has finished loading the stored collection before it
        accepts any other call. */
    constructor Loaded(userDefaults: map<string, Json>)
      ensures this.userDefaults == userDefaults && calls == [LoadSavedImagesCall]
      ensures StoredImages(userDefaults).Some? ==>
                savedImages == StoredImages(userDefaults).value && sent == [savedImages] && Persisted()
      ensures StoredImages(userDefaults).None? ==> savedImages == [] && sent == []
    {
      this.userDefaults := userDefaults;
      savedImages := [];
      sent := [];
      calls := [];
      new;
      LoadSavedImages();
    }

    /** `updateStorage(with:)`: overwrite the blob under the key with the
        encoded list (encoding a list of records cannot fail), then publish
        the list. */
    method UpdateStorage(images: seq<Photos>)
      modifies this
      ensures userDefaults == old(userDefaults)[Key := EncodeList(images)]
      ensures savedImages == images && sent == old(sent) + [images]
      ensures calls == old(calls)
      ensures Persisted()
    {
      var encoded := EncodeList(images);
      userDefaults := userDefaults[Key := encoded];
      savedImages := images;
      sent := sent + [images];
      StoredAfterWrite(old(userDefaults), images);
    }

    /** `saveImage(_:)`: a record whose id is already saved is ignored, with
        nothing written and nothing published; any other record is appended
        at the end, written and published. */
    method SaveImage(image: Photos)
      modifies this
      ensures calls == old(calls) + [SaveImageCall(image)]
      ensures savedImages == Saved(old(savedImages), image)
      ensures HasId(old(savedImages), image.id) ==>
                savedImages == old(savedImages) && userDefaults == old(userDefaults) && sent == old(sent)
      ensures !HasId(old(savedImages), image.id) ==>
                && savedImages == old(savedImages) + [image]
                && userDefaults == old(userDefaults)[Key := EncodeList(savedImages)]
                && sent == old(sent) + [savedImages]
                && Persisted()
      ensures old(Valid()) ==> Valid()
      ensures old(Persisted()) ==> Persisted()
    {
      calls := calls + [SaveImageCall(image)];
      var currentImages := savedImages;
      if HasId(currentImages, image.id) {
        return;
      }
      currentImages := currentImages + [image];
      UpdateStorage(currentImages);
    }

    /** `deleteImage(withId:)`: every record with the id is removed, the rest
        keep their order; the result is always written and published. */
    method DeleteImage(id: string)
      modifies this
      ensures calls == old(calls) + [DeleteImageCall(id)]
      ensures savedImages == WithoutId(old(savedImages), id)
      ensures userDefaults == old(userDefaults)[Key := EncodeList(savedImages)]
      ensures sent == old(sent) + [savedImages]
      ensures old(Valid()) ==> Valid()
      ensures Persisted()
    {
      calls := calls + [DeleteImageCall(id)];
      if Valid() {
        WithoutIdKeepsDistinct(savedImages, id);
      }
      var updatedImages := WithoutId(savedImages, id);
      UpdateStorage(updatedImages);
    }

    /** `reorderImages(from:to:)`: the list after `move(fromOffsets:toOffset:)`,
        a permutation of the old one, always written and published. */
    method ReorderImages(source: set<int>, destination: int)
      requires ValidMove(savedImages, source, destination)
      modifies this
      ensures calls == old(calls) + [ReorderImagesCall(source, destination)]
      ensures savedImages == Moved(old(savedImages), source, destination)
      ensures multiset(savedImages) == multiset(old(savedImages))
      ensures Ids(savedImages) == Ids(old(savedImages))
      ensures userDefaults == old(userDefaults)[Key := EncodeList(savedImages)]
      ensures sent == old(sent) + [savedImages]
      ensures old(Valid()) ==> Valid()
      ensures Persisted()
    {
      calls := calls + [ReorderImagesCall(source, destination)];
      MovedKeepsIds(savedImages, source, destination);
      var currentImages := savedImages;
      currentImages := Moved(currentImages, source, destination);
      UpdateStorage(currentImages);
    }

    /** `loadSavedImages()`: when the key holds a decodable blob, the decoded
        list replaces the current one and is published; otherwise nothing
        changes. The store itself is only read. */
    method LoadSavedImages()
      modifies this
      ensures calls == old(calls) + [LoadSavedImagesCall]
      ensures userDefaults == old(userDefaults)
      ensures StoredImages(userDefaults).None? ==>
                savedImages == old(savedImages) && sent == old(sent)
      ensures StoredImages(userDefaults).Some? ==>
                savedImages == StoredImages(userDefaults).value && sent == old(sent) + [savedImages]
      ensures StoredImages(userDefaults).Some? ==> Persisted()
      ensures old(Valid()) && old(Persisted()) ==> Valid()
    {
      calls := calls + [LoadSavedImagesCall];
      if Key !in userDefaults {
        return;
      }
      var images := DecodeList(userDefaults[Key]);
      if images.None? {
        return;
      }
      savedImages := images.value;
      sent := sent + [images.value];
    }
  }

  /** A record saved into an empty store is saved and read back once; saving
      it again changes nothing. */
  method SaveTwiceScenario()
  {
    var image := Photos("1", "Test Author", 300, 200, "https://test.com", "https://test.com/download");
    var service := new PersistenceService(map[]);
    assert !HasId([], image.id);
    service.SaveImage(image);
    assert service.savedImages == [image] && service.Persisted();
    assert service.savedImages[0].id == "1";
    service.SaveImage(image);
    assert service.savedImages == [image] && service.Persisted();
    var reread := new PersistenceService.Loaded(service.userDefaults);
    assert reread.savedImages == [image];
  }

  /** Deleting the only saved record empties the collection and the stored blob. */
  method DeleteScenario()
  {
    var image := Photos("1", "Test Author", 300, 200, "https://test.com", "https://test.com/download");
    var service := new PersistenceService(map[]);
    assert !HasId([], image.id);
    service.SaveImage(image);
    assert service.savedImages == [image];
    assert WithoutId([image], "1") == [];
    service.DeleteImage("1");
    assert service.savedImages == [];
    assert StoredImages(service.userDefaults) == Some([]);
  }

  /** As written, the load scheduled by `init` may run after a save issued
      right away: that save then starts from the empty list and overwrites the
      stored collection with the new record alone. */
  method EarlySaveOverwritesStored(stored: seq<Photos>, image: Photos) returns (service: PersistenceService)
    requires stored != []
    ensures StoredImages(service.userDefaults) == Some([image])
    ensures StoredImages(service.userDefaults) != Some(stored + [image])
  {
    service := new PersistenceService(map[Key := EncodeList(stored)]);
    assert !HasId([], image.id);
    service.SaveImage(image);
    assert service.savedImages == [image] && service.Persisted();
    service.LoadSavedImages();
    assert service.savedImages == [image] && service.Persisted();
    assert |stored + [image]| > 1;
  }

  /** With the load finished first, a save of a new record keeps everything
      that was stored and appends the record. */
  method LoadedSaveKeepsStored(stored: seq<Photos>, image: Photos) returns (service: PersistenceService)
    requires image.id !in Ids(stored)
    ensures StoredImages(service.userDefaults) == Some(stored + [image])
  {
    StoredAfterWrite(map[], stored);
    service := new PersistenceService.Loaded(map[Key := EncodeList(stored)]);
    HasIdIffInIds(stored, image.id);
    service.SaveImage(image);
  }
}
