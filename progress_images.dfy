/**
 * Progress photos: the record store and the storage bucket, the `create`
 * and `delete` handlers with their ordered checks, and the derivation of
 * the stored file's name from its download URL.
 */
module ProgressImages {
  import opened Wrappers
  import opened Calendar

  // ---------------------------------------------------------------------------
  // String.prototype.split on one separator character

  /** The pieces joined back together, with `sep` between neighbours. */
  function Join(pieces: seq<string>, sep: char): string
    requires |pieces| >= 1
  {
    if |pieces| == 1 then pieces[0] else pieces[0] + [sep] + Join(pieces[1..], sep)
  }

  lemma {:induction false} JoinConsHead(c: char, pieces: seq<string>, sep: char)
    requires |pieces| >= 1
    ensures Join([[c] + pieces[0]] + pieces[1..], sep) == [c] + Join(pieces, sep)
  {
    var ps := [[c] + pieces[0]] + pieces[1..];
    if |pieces| > 1 {
      assert ps[1..] == pieces[1..];
    }
  }

  /** Joining all pieces is joining all but the last, then `sep`, then the last. */
  lemma {:induction false} JoinSnoc(pieces: seq<string>, sep: char)
    requires |pieces| > 1
    ensures Join(pieces, sep) == Join(pieces[..|pieces| - 1], sep) + [sep] + pieces[|pieces| - 1]
    decreases |pieces|
  {
    var init := pieces[..|pieces| - 1];
    if |pieces| > 2 {
      JoinSnoc(pieces[1..], sep);
      assert pieces[1..][..|pieces| - 2] == init[1..];
      assert pieces[1..][|pieces| - 2] == pieces[|pieces| - 1];
    }
  }

  /**
   * `s.split(sep)`: at least one piece, none containing `sep`, and joining
   * them with `sep` gives `s` back.
   */
  function Split(s: string, sep: char): (r: seq<string>)
    ensures |r| >= 1
    ensures forall k :: 0 <= k < |r| ==> sep !in r[k]
    ensures Join(r, sep) == s
  {
    if s == [] then [[]]
    else if s[0] == sep then
      assert s == [sep] + s[1..];
      [[]] + Split(s[1..], sep)
    else
      var rest := Split(s[1..], sep);
      JoinConsHead(s[0], rest, sep);
      assert s == [s[0]] + s[1..];
      [[s[0]] + rest[0]] + rest[1..]
  }

  /** `s.split(sep).pop()`: the text after the last `sep`, or all of `s` when it has none. */
  function AfterLast(s: string, sep: char): (r: string)
    ensures |r| <= |s| && r == s[|s| - |r|..]
    ensures sep !in r
    ensures |r| == |s| || s[|s| - |r| - 1] == sep
  {
    var pieces := Split(s, sep);
    var r := pieces[|pieces| - 1];
    if |pieces| == 1 then r
    else
      JoinSnoc(pieces, sep);
      var front := Join(pieces[..|pieces| - 1], sep) + [sep];
      assert s == front + r;
      assert s[|s| - |r| - 1] == front[|front| - 1];
      r
  }

  /** `s.split(sep)[0]`: the text before the first `sep`, or all of `s` when it has none. */
  function BeforeFirst(s: string, sep: char): (r: string)
    ensures |r| <= |s| && r == s[..|r|]
    ensures sep !in r
    ensures |r| == |s| || s[|r|] == sep
  {
    var pieces := Split(s, sep);
    var r := pieces[0];
    if |pieces| == 1 then r
    else
      assert s == r + [sep] + Join(pieces[1..], sep);
      r
  }

  /** The characterisation of `AfterLast` determines it: no other suffix has those properties. */
  lemma {:induction false} AfterLastUnique(s: string, sep: char, t: string)
    requires |t| <= |s| && t == s[|s| - |t|..]
    requires sep !in t
    requires |t| == |s| || s[|s| - |t| - 1] == sep
    ensures t == AfterLast(s, sep)
  {
  }

  /** The characterisation of `BeforeFirst` determines it: no other prefix has those properties. */
  lemma {:induction false} BeforeFirstUnique(s: string, sep: char, t: string)
    requires |t| <= |s| && t == s[..|t|]
    requires sep !in t
    requires |t| == |s| || s[|t|] == sep
    ensures t == BeforeFirst(s, sep)
  {
  }

  /**
   * The storage file name of a download URL: the last path segment, cut at
   * the query string. It contains neither '/' nor '?' and occurs in the URL
   * right after its last '/' (or at its start).
   */
  function FileName(imageUrl: string): (r: string)
    ensures '/' !in r && '?' !in r
    ensures var seg := AfterLast(imageUrl, '/'); |r| <= |seg| && r == seg[..|r|]
    ensures var seg := AfterLast(imageUrl, '/'); |r| == |seg| || seg[|r|] == '?'
  {
    BeforeFirst(AfterLast(imageUrl, '/'), '?')
  }

  /** The object path of a user's progress photo in the storage bucket. */
  function StoragePath(userId: string, fileName: string): (r: string)
    ensures |r| >= |fileName| && r[|r| - |fileName|..] == fileName
  {
    "progress-photos/" + userId + "/" + fileName
  }

  /** A URL of a plain file name with a token query yields that file name. */
  lemma {:induction false} FileNameOfDownloadUrl(base: string, name: string, query: string)
    requires '/' !in name && '?' !in name && '/' !in query
    ensures FileName(base + "/" + name + "?" + query) == name
  {
    var url := base + "/" + name + "?" + query;
    var seg := name + "?" + query;
    assert url == base + "/" + seg;
    AfterLastUnique(url, '/', seg);
    assert seg[..|name|] == name;
    BeforeFirstUnique(seg, '?', name);
  }

  // ---------------------------------------------------------------------------
  // Records and handlers

  datatype ImageType = Front | Side | Back

  /** The value the schema stores for each `type`. */
  function ImageTypeName(t: ImageType): string {
    match t
    case Front => "front"
    case Side => "side"
    case Back => "back"
  }

  /** The schema's `enum` for `type`: exactly the three names are accepted, each as its own value. */
  function ParseImageType(s: string): (r: Option<ImageType>)
    ensures r.Some? ==> ImageTypeName(r.value) == s
    ensures r.Some? <==> exists t :: ImageTypeName(t) == s
  {
    if s == "front" then Some(Front)
    else if s == "side" then Some(Side)
    else if s == "back" then Some(Back)
    else None
  }

  datatype ProgressImage = ProgressImage(userId: string, imageUrl: string, imageType: ImageType, date: Instant)

  /**
   * What a handler answers. `SaveRejected` is a schema validation failure
   * raised by the save and handed to the shared error handler.
   */
  datatype Reply = Created(image: ProgressImage) | NoContent | Failed(status: int) | SaveRejected

  /** A request-body field is usable when present and non-empty (JavaScript truthiness of a string). */
  predicate Truthy(v: Option<string>) {
    v.Some? && v.value != []
  }

  /** What the schema demands of a stored record. */
  predicate WellFormed(img: ProgressImage) {
    img.userId != [] && img.imageUrl != []
  }

  /**
   * The reply of `create`, and the record it stores when it succeeds. An
   * empty caller id is the missing `uid` that `getUserId` answers with 401
   * before anything else.
   */
  function CreateReply(userId: string, imageUrl: Option<string>, imageType: Option<string>, now: Instant): (r: Reply)
    ensures r == Failed(401) <==> userId == []
    ensures r.Failed? <==> userId == [] || !Truthy(imageUrl) || !Truthy(imageType)
    ensures userId != [] && r.Failed? ==> r.status == 400
    ensures r.Created? <==> userId != [] && Truthy(imageUrl) && Truthy(imageType) && ParseImageType(imageType.value).Some?
    ensures r.Created? ==> r.image.userId == userId && r.image.date == now && r.image.imageUrl == imageUrl.value
                           && WellFormed(r.image)
    ensures r.Created? ==> ParseImageType(imageType.value) == Some(r.image.imageType)
    ensures r.SaveRejected? <==> userId != [] && Truthy(imageUrl) && Truthy(imageType)
                                 && ParseImageType(imageType.value).None?
    ensures !r.NoContent?
  {
    if userId == [] then Failed(401)
    else if !Truthy(imageUrl) || !Truthy(imageType) then Failed(400)
    else if ParseImageType(imageType.value).None? then SaveRejected
    else Created(ProgressImage(userId, imageUrl.value, ParseImageType(imageType.value).value, now))
  }

  /** Records by id, and the object paths present in the storage bucket. */
  class ProgressImageStore {
    var images: map<string, ProgressImage>
    var files: set<string>

    ghost predicate Valid()
      reads this
    {
      forall id :: id in images ==> WellFormed(images[id])
    }

    constructor ()
      ensures images == map[] && files == {}
      ensures Valid()
    {
      images := map[];
      files := {};
    }

    /**
     * `create`: a caller without an id gets 401; a missing or empty
     * `imageUrl` or `type` gives 400 before anything is saved; a `type`
     * outside the enumeration fails the schema on save; otherwise the record, stamped with
     * the caller and `now`, is stored under the fresh id `newId`.
     */
    method Create(userId: string, imageUrl: Option<string>, imageType: Option<string>, now: Instant, newId: string)
      returns (r: Reply)
      requires Valid()
      requires newId !in images
      modifies this
      ensures Valid()
      ensures r == CreateReply(userId, imageUrl, imageType, now)
      ensures r.Created? ==> images == old(images)[newId := r.image]
      ensures !r.Created? ==> images == old(images)
      ensures files == old(files)
    {
      r := CreateReply(userId, imageUrl, imageType, now);
      if r.Created? {
        images := images[newId := r.image];
      }
    }

    /**
     * `delete`: a caller without an id gets 401 before any lookup; an
     * unknown id gives 404, checked before ownership; another
     * user's image gives 403; in both cases nothing changes. Otherwise the
     * storage object is deleted when the file name is non-empty (a storage
     * failure, `storageFails`, is swallowed) and the record is removed.
     */
    method Delete(userId: string, id: string, storageFails: bool) returns (r: Reply)
      requires Valid()
      modifies this
      ensures Valid()
      ensures userId == [] ==> r == Failed(401) && images == old(images) && files == old(files)
      ensures userId != [] && id !in old(images) ==> r == Failed(404) && images == old(images) && files == old(files)
      ensures userId != [] && id in old(images) && old(images)[id].userId != userId ==>
                r == Failed(403) && images == old(images) && files == old(files)
      ensures userId != [] && id in old(images) && old(images)[id].userId == userId ==>
                && r == NoContent
                && images == old(images) - {id}
                && var name := FileName(old(images)[id].imageUrl);
                   files == if name != [] && !storageFails then old(files) - {StoragePath(userId, name)} else old(files)
    {
      if userId == [] {
        return Failed(401);
      }
      if id !in images {
        return Failed(404);
      }
      var image := images[id];
      if image.userId != userId {
        return Failed(403);
      }
      var imageFileName := FileName(image.imageUrl);
      if imageFileName != [] && !storageFails {
        files := files - {StoragePath(userId, imageFileName)};
      }
      images := images - {id};
      r := NoContent;
    }
  }

  /** Deleting only ever removes storage objects under the caller's own folder. */
  lemma {:induction false} DeletedPathInOwnFolder(userId: string, imageUrl: string)
    ensures var p := StoragePath(userId, FileName(imageUrl));
            p[..|"progress-photos/" + userId + "/"|] == "progress-photos/" + userId + "/"
            && '/' !in p[|"progress-photos/" + userId + "/"|..]
  {
    var name := FileName(imageUrl);
    var prefix := "progress-photos/" + userId + "/";
    assert StoragePath(userId, name) == prefix + name;
    assert (prefix + name)[|prefix|..] == name;
  }
}
