/** The view model behind the single screen: the "add a random image" action
    with its busy flag and error message, and the delete and reorder actions
    that it hands on to the persistence service. */
module ViewModel {
  import opened PhotoModel
  import opened Codec
  import opened PhotoLists
  import opened Persistence

  /** What awaiting `fetchImageEntries()` produces: the decoded listing, or a
      thrown error, seen through its localized description. */
  datatype FetchOutcome = Entries(entries: seq<Photos>) | Thrown(description: string)

  /** The message shown when the listing comes back empty. */
  const NoImagesMessage: string := "No images available"

  class PhotosViewModel {
    /** The view's copy of the persisted list; it is refreshed by a subscription
        on the main queue, not by any method here. */
    var savedImages: seq<Photos>
    var isLoading: bool
    var errorMessage: Option<string>
    const persistenceService: PersistenceService

    constructor (persistenceService: PersistenceService)
      ensures this.persistenceService == persistenceService
      ensures savedImages == [] && !isLoading && errorMessage == None
    {
      this.persistenceService := persistenceService;
      savedImages := [];
      isLoading := false;
      errorMessage := None;
    }

    /** `fetchAndSaveRandomImage()`, given what the fetch produced. The busy
        flag is down again on every exit. A thrown error shows its description
        and an empty listing shows the fixed message, and neither calls the
        service. A non-empty listing clears the message and saves exactly one
        of its records, chosen freely. */
    method FetchAndSaveRandomImage(fetched: FetchOutcome)
      modifies this, persistenceService
      ensures !isLoading
      ensures savedImages == old(savedImages)
      ensures fetched.Thrown? ==>
                errorMessage == Some(fetched.description) && unchanged(persistenceService)
      ensures fetched == Entries([]) ==>
                errorMessage == Some(NoImagesMessage) && unchanged(persistenceService)
      ensures fetched.Entries? && fetched.entries != [] ==>
                && errorMessage == None
                && exists e :: e in fetched.entries
                     && persistenceService.calls == old(persistenceService.calls) + [SaveImageCall(e)]
                     && persistenceService.savedImages == Saved(old(persistenceService.savedImages), e)
                     && (HasId(old(persistenceService.savedImages), e.id) ==>
                           && persistenceService.userDefaults == old(persistenceService.userDefaults)
                           && persistenceService.sent == old(persistenceService.sent))
                     && (!HasId(old(persistenceService.savedImages), e.id) ==>
                           && persistenceService.userDefaults
                                == old(persistenceService.userDefaults)[Key := EncodeList(persistenceService.savedImages)]
                           && persistenceService.sent
                                == old(persistenceService.sent) + [persistenceService.savedImages])
      ensures old(persistenceService.Persisted()) ==> persistenceService.Persisted()
      ensures old(persistenceService.Valid()) ==> persistenceService.Valid()
    {
      isLoading := true;
      errorMessage := None;
      match fetched {
        case Thrown(description) =>
          errorMessage := Some(description);
        case Entries(entries) =>
          if entries == [] {
            errorMessage := Some(NoImagesMessage);
            isLoading := false;
            return;
          }
          assert entries[0] in entries;
          var randomEntry :| randomEntry in entries;
          persistenceService.SaveImage(randomEntry);
      }
      isLoading := false;
    }

    /** `deleteImage(withId:)`: one call on the service with the same id; the
        view model's own state is left alone. */
    method DeleteImage(id: string)
      modifies persistenceService
      ensures unchanged(this)
      ensures persistenceService.Persisted()
      ensures persistenceService.calls == old(persistenceService.calls) + [DeleteImageCall(id)]
      ensures persistenceService.savedImages == WithoutId(old(persistenceService.savedImages), id)
      ensures persistenceService.userDefaults
                == old(persistenceService.userDefaults)[Key := EncodeList(persistenceService.savedImages)]
      ensures persistenceService.sent == old(persistenceService.sent) + [persistenceService.savedImages]
      ensures old(persistenceService.Valid()) ==> persistenceService.Valid()
    {
      persistenceService.DeleteImage(id);
    }

    /** `reorderImages(from:to:)`: one call on the service with the same
        offsets; the view model's own state is left alone. */
    method ReorderImages(source: set<int>, destination: int)
      requires ValidMove(persistenceService.savedImages, source, destination)
      modifies persistenceService
      ensures unchanged(this)
      ensures persistenceService.calls == old(persistenceService.calls) + [ReorderImagesCall(source, destination)]
      ensures persistenceService.savedImages == Moved(old(persistenceService.savedImages), source, destination)
      ensures persistenceService.userDefaults
                == old(persistenceService.userDefaults)[Key := EncodeList(persistenceService.savedImages)]
      ensures persistenceService.sent == old(persistenceService.sent) + [persistenceService.savedImages]
      ensures persistenceService.Persisted()
      ensures old(persistenceService.Valid()) ==> persistenceService.Valid()
    {
      persistenceService.ReorderImages(source, destination);
    }
  }

  /** A listing of one record, fetched twice against an empty store, saves
      that record once: the second save finds its id and changes nothing. */
  method FetchTwiceScenario()
  {
    var image := Photos("1", "Mock Author", 300, 200, "https://mock.com", "https://mock.com/download");
    var service := new PersistenceService(map[]);
    var viewModel := new PhotosViewModel(service);
    assert !HasId([], image.id);
    viewModel.FetchAndSaveRandomImage(Entries([image]));
    assert !viewModel.isLoading && viewModel.errorMessage == None;
    assert service.savedImages == [image];
    assert HasId(service.savedImages, image.id);
    viewModel.FetchAndSaveRandomImage(Entries([image]));
    assert service.savedImages == [image];
  }

  /** A failed fetch leaves an error message and saves nothing. */
  method FetchErrorScenario()
  {
    var service := new PersistenceService(map[]);
    var viewModel := new PhotosViewModel(service);
    viewModel.FetchAndSaveRandomImage(Thrown("Invalid response from server"));
    assert !viewModel.isLoading && viewModel.errorMessage.Some?;
    assert service.calls == [] && service.savedImages == [];
  }
}
