/**
 * The season photo gallery state (src/composables/usePhotoData.js): the photo list and
 * its view URLs, the loading/uploading flags, the upload progress and the error text,
 * changed step by step by `fetchPhotos`, `uploadPhoto` and `removePhoto`. Every awaited
 * service call is replaced by its answer, passed in.
 */
module PhotoData {
  import opened Common

  /** A row of `getPhotosBySeason`; `ownerTeamId` is `approved_owners?.team_id`. */
  datatype Photo = Photo(id: string, s3Key: string, filename: string, ownerTeamId: Option<string>)

  /** The answer of an awaited call: its value, or the message of the error it throws. */
  datatype Step<T> = Done(value: T) | Fail(message: string)

  /** `{ data, error }` of `getPhotosBySeason`: `data` may be `null`. */
  type PhotoQuery = Step<Option<seq<Photo>>>

  /** `{ urls, error }` of `getViewUrls`. */
  type UrlsAnswer = Step<map<string, string>>

  /** A string value is truthy when present and non-empty. */
  predicate Truthy(s: Option<string>) {
    s.Some? && s.value != ""
  }

  // ---------------------------------------------------------------------------
  // photosWithUrls (24-30)

  /** `{ ...photo, url, canDelete }`. */
  datatype PhotoView = PhotoView(photo: Photo, url: Option<string>, canDelete: bool)

  /**
   * `photoUrls[photo.s3_key] || null`: a missing or empty URL is `null`, and
   * `approved_owners?.team_id === userProfile?.teamId`.
   */
  function ViewOf(photo: Photo, photoUrls: map<string, string>, profileTeamId: Option<string>): PhotoView {
    var url := if photo.s3Key in photoUrls && photoUrls[photo.s3Key] != "" then Some(photoUrls[photo.s3Key]) else None;
    PhotoView(photo, url, photo.ownerTeamId == profileTeamId)
  }

  function PhotosWithUrls(photos: seq<Photo>, photoUrls: map<string, string>, profileTeamId: Option<string>): seq<PhotoView> {
    seq(|photos|, i requires 0 <= i < |photos| => ViewOf(photos[i], photoUrls, profileTeamId))
  }

  /**
   * The views keep the photos, their number and their order; a view has a URL exactly
   * when a non-empty one is known for its key, and may be deleted exactly when the
   * uploader's team is the user's, where two missing team ids count as equal.
   */
  lemma PhotosWithUrlsSpec(photos: seq<Photo>, photoUrls: map<string, string>, profileTeamId: Option<string>)
    ensures var vs := PhotosWithUrls(photos, photoUrls, profileTeamId);
      && |vs| == |photos|
      && forall i :: 0 <= i < |vs| ==>
           && vs[i].photo == photos[i]
           && (vs[i].url.Some? <==> photos[i].s3Key in photoUrls && photoUrls[photos[i].s3Key] != "")
           && (vs[i].url.Some? ==> vs[i].url.value == photoUrls[photos[i].s3Key])
           && (vs[i].canDelete <==> photos[i].ownerTeamId == profileTeamId)
  {
  }

  // ---------------------------------------------------------------------------
  // fetchPhotos (33-60)

  /** The part of the state `fetchPhotos` writes and keeps. */
  datatype Gallery = Gallery(photos: seq<Photo>, photoUrls: map<string, string>, error: Option<string>)

  /** `photos.map(p => p.s3_key)`. */
  function Keys(photos: seq<Photo>): (ks: seq<string>)
    ensures |ks| == |photos|
    ensures forall i :: 0 <= i < |ks| ==> ks[i] == photos[i].s3Key
  {
    seq(|photos|, i requires 0 <= i < |photos| => photos[i].s3Key)
  }

  /**
   * The gallery after a fetch with a season id: the error is cleared; the photos become the
   * rows (`data || []`) unless the query fails; the URLs are asked for only when there are
   * photos, and become empty when there are none.
   */
  function AfterFetch(g: Gallery, fetched: PhotoQuery, viewUrls: seq<string> -> UrlsAnswer): Gallery {
    match fetched
    case Fail(message) => g.(error := Some(message))
    case Done(data) =>
      var ps := data.GetOr([]);
      if |ps| > 0 then
        match viewUrls(Keys(ps))
        case Fail(message) => Gallery(ps, g.photoUrls, Some(message))
        case Done(urls) => Gallery(ps, urls, None)
      else Gallery(ps, map[], None)
  }

  /**
   * What a fetch promises: on failure the old photos and URLs stay and the error is the
   * thrown message; on success the list is the rows in order, and with no rows no URL is kept.
   */
  lemma AfterFetchSpec(g: Gallery, fetched: PhotoQuery, viewUrls: seq<string> -> UrlsAnswer)
    ensures var r := AfterFetch(g, fetched, viewUrls);
      && (fetched.Fail? ==> r.photos == g.photos && r.photoUrls == g.photoUrls && r.error == Some(fetched.message))
      && (fetched.Done? ==> r.photos == fetched.value.GetOr([]))
      && (fetched.Done? && r.photos == [] ==> r.photoUrls == map[] && r.error.None?)
      && (r.error.None? ==> fetched.Done? && (r.photos != [] ==> viewUrls(Keys(r.photos)) == Done(r.photoUrls)))
  {
  }

  // ---------------------------------------------------------------------------
  // uploadPhoto (63-133)

  /** The `File` handed to `uploadPhoto`: its name, MIME type and size in bytes. */
  datatype File = File(name: string, mimeType: string, size: int)

  datatype Refusal = NotLoggedIn | InvalidSeason | BadType | TooLarge

  function RefusalMessage(why: Refusal): string {
    match why
    case NotLoggedIn => "You must be logged in to upload photos"
    case InvalidSeason => "Invalid season data"
    case BadType => "Only JPG and PNG files are allowed"
    case TooLarge => "File size must be under 10 MB"
  }

  const AllowedTypes: seq<string> := ["image/jpeg", "image/png"]
  const MaxSize := 10 * 1024 * 1024

  /** The checks before any state changes, in the source's order. */
  function PreCheck(isAuthenticated: bool, seasonId: Option<string>, year: Option<int>, file: File): Option<Refusal> {
    if !isAuthenticated then Some(NotLoggedIn)
    else if !Truthy(seasonId) || year.None? || year.value == 0 then Some(InvalidSeason)
    else if file.mimeType !in AllowedTypes then Some(BadType)
    else if file.size > MaxSize then Some(TooLarge)
    else None
  }

  /**
   * The first failing check decides: a signed-out user is refused whatever the file, and a
   * JPEG or PNG of at most exactly 10 MiB passes once the season is known.
   */
  lemma PreCheckSpec(isAuthenticated: bool, seasonId: Option<string>, year: Option<int>, file: File)
    ensures var c := PreCheck(isAuthenticated, seasonId, year, file);
      && (c == Some(NotLoggedIn) <==> !isAuthenticated)
      && (c == Some(InvalidSeason) <==> isAuthenticated && (!Truthy(seasonId) || year.None? || year.value == 0))
      && (c == Some(BadType) <==>
            isAuthenticated && Truthy(seasonId) && year.Some? && year.value != 0 && file.mimeType !in AllowedTypes)
      && (c.None? <==>
            isAuthenticated && Truthy(seasonId) && year.Some? && year.value != 0
            && file.mimeType in AllowedTypes && file.size <= 10485760)
  {
  }

  /** The answers of the four awaited upload steps. `owner` is `getApprovedOwnerId`'s id, if any. */
  datatype UploadAnswers = UploadAnswers(presign: Step<string>, put: Step<()>, owner: Step<Option<string>>, save: Step<()>)

  /** The message of the first step that throws, if one does. */
  function UploadFailure(a: UploadAnswers): Option<string> {
    if a.presign.Fail? then Some(a.presign.message)
    else if a.put.Fail? then Some(a.put.message)
    else if a.owner.Fail? then Some(a.owner.message)
    else if a.owner.value.None? || a.owner.value.value == "" then Some("Could not find owner record")
    else if a.save.Fail? then Some(a.save.message)
    else None
  }

  /** The values `uploadProgress` is given inside `try`, up to the step that throws. */
  function ProgressSteps(a: UploadAnswers): seq<int> {
    if a.presign.Fail? then [0, 10]
    else if a.put.Fail? then [0, 10, 30]
    else if a.owner.Fail? || a.owner.value.None? || a.owner.value.value == "" || a.save.Fail? then [0, 10, 30, 70]
    else [0, 10, 30, 70, 100]
  }

  /**
   * The progress only rises, through a prefix of 0, 10, 30, 70, 100 that reaches 100
   * exactly when no step throws.
   */
  lemma ProgressSpec(a: UploadAnswers)
    ensures var p := ProgressSteps(a);
      && 2 <= |p| <= 5 && p == [0, 10, 30, 70, 100][..|p|]
      && (forall i, j :: 0 <= i < j < |p| ==> p[i] < p[j])
      && (p[|p| - 1] == 100 <==> UploadFailure(a).None?)
  {
  }

  /** `{ success, error }`. */
  datatype Outcome = Outcome(success: bool, error: Option<string>)

  class PhotoStore {
    const seasonId: Option<string>
    const year: Option<int>
    const isAuthenticated: bool
    var photos: seq<Photo>
    var photoUrls: map<string, string>
    var loading: bool
    var uploading: bool
    var uploadProgress: int
    var error: Option<string>
    /** Every value `uploadProgress` has been given, in order. */
    ghost var progressLog: seq<int>

    function Snapshot(): Gallery
      reads this
    {
      Gallery(photos, photoUrls, error)
    }

    /** The refs as `usePhotoData` creates them. */
    constructor(seasonId: Option<string>, year: Option<int>, isAuthenticated: bool)
      ensures this.seasonId == seasonId && this.year == year && this.isAuthenticated == isAuthenticated
      ensures photos == [] && photoUrls == map[] && error.None?
      ensures !loading && !uploading && uploadProgress == 0 && progressLog == []
    {
      this.seasonId := seasonId;
      this.year := year;
      this.isAuthenticated := isAuthenticated;
      photos := [];
      photoUrls := map[];
      loading := false;
      uploading := false;
      uploadProgress := 0;
      error := None;
      progressLog := [];
    }

    /** `fetchPhotos`: nothing at all without a season id; otherwise a fetch that ends not loading. */
    method FetchPhotos(fetched: PhotoQuery, viewUrls: seq<string> -> UrlsAnswer)
      modifies this
      ensures !Truthy(seasonId) ==> unchanged(this)
      ensures Truthy(seasonId) ==>
        && Snapshot() == AfterFetch(old(Snapshot()), fetched, viewUrls)
        && !loading
        && uploading == old(uploading) && uploadProgress == old(uploadProgress) && progressLog == old(progressLog)
    {
      if !Truthy(seasonId) {
        return;
      }
      loading := true;
      error := None;
      match fetched {
        case Fail(message) =>
          error := Some(message);
        case Done(data) =>
          photos := data.GetOr([]);
          if |photos| > 0 {
            var s3Keys := Keys(photos);
            match viewUrls(s3Keys) {
              case Fail(message) =>
                error := Some(message);
              case Done(urls) =>
                photoUrls := urls;
            }
          } else {
            photoUrls := map[];
          }
      }
      loading := false;
    }

    /** Sets `uploadProgress` and records the value in the log. */
    method SetProgress(p: int)
      modifies this
      ensures uploadProgress == p && progressLog == old(progressLog) + [p]
      ensures photos == old(photos) && photoUrls == old(photoUrls) && error == old(error)
      ensures loading == old(loading) && uploading == old(uploading)
    {
      uploadProgress := p;
      progressLog := progressLog + [p];
    }

    /**
     * `uploadPhoto`. A refused file changes nothing. Otherwise the progress runs through
     * `ProgressSteps` and is reset to 0 with `uploading` cleared; the first step that
     * throws decides the error, and a complete upload refreshes the gallery.
     */
    method UploadPhoto(file: File, a: UploadAnswers, fetched: PhotoQuery, viewUrls: seq<string> -> UrlsAnswer)
      returns (r: Outcome)
      modifies this
      ensures var c := PreCheck(isAuthenticated, seasonId, year, file);
        c.Some? ==> r == Outcome(false, Some(RefusalMessage(c.value))) && unchanged(this)
      ensures PreCheck(isAuthenticated, seasonId, year, file).None? ==>
        && !uploading && uploadProgress == 0
        && progressLog == old(progressLog) + ProgressSteps(a) + [0]
        && (UploadFailure(a).Some? ==>
              && r == Outcome(false, UploadFailure(a))
              && Snapshot() == Gallery(old(photos), old(photoUrls), UploadFailure(a))
              && loading == old(loading))
        && (UploadFailure(a).None? ==>
              && r == Outcome(true, None)
              && Snapshot() == AfterFetch(Gallery(old(photos), old(photoUrls), None), fetched, viewUrls)
              && !loading)
    {
      var c := PreCheck(isAuthenticated, seasonId, year, file);
      if c.Some? {
        return Outcome(false, Some(RefusalMessage(c.value)));
      }
      uploading := true;
      var failure := UploadSteps(a, fetched, viewUrls);
      if failure.Some? {
        error := failure;
        r := Outcome(false, failure);
      } else {
        r := Outcome(true, None);
      }
      uploading := false;
      SetProgress(0);
    }

    /**
     * The body of `uploadProgress = 0; error.value = null; try { ... }`: the steps up to the
     * first that throws, whose message is returned, and the gallery refresh after the last.
     */
    method UploadSteps(a: UploadAnswers, fetched: PhotoQuery, viewUrls: seq<string> -> UrlsAnswer)
      returns (failure: Option<string>)
      requires Truthy(seasonId)
      modifies this
      ensures failure == UploadFailure(a)
      ensures progressLog == old(progressLog) + ProgressSteps(a)
      ensures uploading == old(uploading)
      ensures failure.Some? ==>
        photos == old(photos) && photoUrls == old(photoUrls) && error == None && loading == old(loading)
      ensures failure.None? ==>
        Snapshot() == AfterFetch(Gallery(old(photos), old(photoUrls), None), fetched, viewUrls) && !loading
    {
      SetProgress(0);
      error := None;
      failure := None;
      SetProgress(10);
      if a.presign.Fail? {
        failure := Some(a.presign.message);
        return;
      }
      SetProgress(30);
      if a.put.Fail? {
        failure := Some(a.put.message);
        return;
      }
      SetProgress(70);
      if a.owner.Fail? {
        failure := Some(a.owner.message);
      } else if a.owner.value.None? || a.owner.value.value == "" {
        failure := Some("Could not find owner record");
      } else if a.save.Fail? {
        failure := Some(a.save.message);
      } else {
        SetProgress(100);
        FetchPhotos(fetched, viewUrls);
      }
    }

    /** `removePhoto`: a refused delete sets the error; a done one refreshes the gallery. */
    method RemovePhoto(deleted: Step<()>, fetched: PhotoQuery, viewUrls: seq<string> -> UrlsAnswer) returns (r: Outcome)
      modifies this
      ensures deleted.Fail? ==>
        r == Outcome(false, Some(deleted.message))
        && Snapshot() == old(Snapshot()).(error := Some(deleted.message))
        && loading == old(loading) && uploading == old(uploading) && uploadProgress == old(uploadProgress)
      ensures deleted.Done? ==>
        r == Outcome(true, None)
        && (Truthy(seasonId) ==> Snapshot() == AfterFetch(old(Snapshot()), fetched, viewUrls) && !loading)
        && (!Truthy(seasonId) ==> unchanged(this))
    {
      if deleted.Fail? {
        error := Some(deleted.message);
        return Outcome(false, Some(deleted.message));
      }
      FetchPhotos(fetched, viewUrls);
      r := Outcome(true, None);
    }
  }
}
