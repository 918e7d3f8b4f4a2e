/** The item routes of the backend: creating an item from a multipart
    submission, fetching one item, and sending an enquiry about one. The
    image host, the database and the mail transport are collaborators whose
    answers are parameters; the local staging directory, the log of upload
    requests and the item table are the state the creation handler changes. */
module ItemsRoute {
  import opened Wrappers
  import opened Inventory
  import opened UploadRules
  import opened EnquiryEmail

  const FieldsRequiredMessage: string := "Name, type, and description are required"
  const CoverRequiredMessage: string := "Cover image is required"
  const CreateFailedMessage: string := "Failed to create item"
  const CreatedMessage: string := "Item successfully added"
  const NotFoundMessage: string := "Item not found"
  const FetchFailedMessage: string := "Failed to fetch item"
  const EnquirySentMessage: string := "Enquiry sent successfully"
  const EnquiryFailedMessage: string := "Failed to send enquiry"

  /** What a handler answers. A submission whose files multer refuses never
      reaches the handler; the error goes to the framework's default handler,
      which answers 500. */
  datatype Response =
    | Created(message: string, item: Item)
    | Found(item: Item)
    | Done(message: string)
    | BadRequest(error: string)
    | NotFound(error: string)
    | ServerError(error: string)
    | UploadRejected(reason: IntakeError)
  {
    function Status(): (code: int) {
      match this
      case Created(_, _) => 201
      case Found(_) => 200
      case Done(_) => 200
      case BadRequest(_) => 400
      case NotFound(_) => 404
      case ServerError(_) => 500
      case UploadRejected(_) => 500
    }
  }

  /** The text fields of the form; a field the client did not send is None. */
  datatype Body = Body(name: Option<string>, itemType: Option<string>, description: Option<string>)

  /** A field passes `!field` only when it was sent and is not empty. */
  predicate Present(f: Option<string>) {
    f.Some? && f.value != ""
  }

  predicate FieldsPresent(body: Body) {
    Present(body.name) && Present(body.itemType) && Present(body.description)
  }

  /** The staging directory's files, the paths handed to the image host in
      the order the requests were issued, and the item table by id. */
  datatype Backend = Backend(disk: set<string>, uploadCalls: seq<string>, db: map<string, Item>)

  function Paths(fs: seq<StagedFile>): (ps: seq<string>) {
    seq(|fs|, i requires 0 <= i < |fs| => fs[i].path)
  }

  /** Every path was taken by the image host; `storage` maps the paths it
      takes to the URL it answers with. */
  predicate AllUploaded(paths: seq<string>, storage: map<string, string>) {
    forall i :: 0 <= i < |paths| ==> paths[i] in storage
  }

  /** `results.map(result => result.secure_url)`: the URLs in request order. */
  function Urls(paths: seq<string>, storage: map<string, string>): (us: seq<string>)
    requires AllUploaded(paths, storage)
  {
    seq(|paths|, i requires 0 <= i < |paths| => storage[paths[i]])
  }

  /** `unlinkSync` over the paths in order: it stops, reporting failure, at
      the first path that is no longer in the directory. */
  function UnlinkAll(disk: set<string>, paths: seq<string>): (outcome: (set<string>, bool))
    decreases |paths|
  {
    if paths == [] then (disk, true)
    else if paths[0] !in disk then (disk, false)
    else UnlinkAll(disk - {paths[0]}, paths[1..])
  }

  predicate NoDuplicates(paths: seq<string>) {
    forall i, j :: 0 <= i < j < |paths| ==> paths[i] != paths[j]
  }

  /** The paths of the cover followed by those of the additional images. */
  function StagedPaths(files: Files): (paths: seq<string>) {
    Paths(files.cover) + Paths(files.images)
  }

  function NewItem(body: Body, coverUrl: string, urls: seq<string>, newId: string, createdAt: string): (item: Item)
    requires FieldsPresent(body)
  {
    Item(newId, body.name.value, body.itemType.value, body.description.value, coverUrl, urls, createdAt)
  }

  /** The creation handler, step by step: check the text fields, then the
      cover; upload the cover, then issue every additional upload and wait
      for all of them; remove the staged files; insert the record. The first
      step that fails decides the answer and nothing after it runs. The insert
      fails when the database says so (`insertFails`) or when the id it
      assigns is already taken. */
  function CreateSpec(st: Backend, body: Body, files: Files, storage: map<string, string>,
                      newId: string, createdAt: string, insertFails: bool): (outcome: (Response, Backend))
  {
    if !FieldsPresent(body) then (BadRequest(FieldsRequiredMessage), st)
    else if |files.cover| == 0 then (BadRequest(CoverRequiredMessage), st)
    else
      var coverPath := files.cover[0].path;
      var calls := st.uploadCalls + [coverPath];
      if coverPath !in storage then (ServerError(CreateFailedMessage), st.(uploadCalls := calls))
      else
        var imagePaths := Paths(files.images);
        var calls' := calls + imagePaths;
        if !AllUploaded(imagePaths, storage) then (ServerError(CreateFailedMessage), st.(uploadCalls := calls'))
        else
          var (disk', removed) := UnlinkAll(st.disk, [coverPath] + imagePaths);
          var st' := Backend(disk', calls', st.db);
          if !removed || insertFails || newId in st.db then (ServerError(CreateFailedMessage), st')
          else
            var item := NewItem(body, storage[coverPath], Urls(imagePaths, storage), newId, createdAt);
            (Created(CreatedMessage, item), st'.(db := st.db[newId := item]))
  }

  /** The whole POST: multer takes the parts first and either refuses the
      submission, leaving nothing behind, or stages the accepted files in
      the directory and hands them to the creation handler. */
  function PostSpec(st: Backend, parts: seq<Part>, body: Body, storage: map<string, string>,
                    newId: string, createdAt: string, insertFails: bool): (outcome: (Response, Backend))
  {
    match Intake(parts)
    case Err(e) => (UploadRejected(e), st)
    case Ok(files) =>
      var staged := st.(disk := st.disk + set p | p in StagedPaths(files));
      CreateSpec(staged, body, files, storage, newId, createdAt, insertFails)
  }

  /** GET `/:id`. */
  function GetItem(db: map<string, Item>, id: string, dbFails: bool): (resp: Response) {
    if dbFails then ServerError(FetchFailedMessage)
    else if id !in db then NotFound(NotFoundMessage)
    else Found(db[id])
  }

  /** POST `/:id/enquire`; the second component lists the messages handed to
      the transport. */
  function Enquire(db: map<string, Item>, id: string, dbFails: bool, env: MailEnv, date: string,
                   transport: SendResult): (answer: (Response, seq<MailOptions>))
  {
    if dbFails then (ServerError(EnquiryFailedMessage), [])
    else if id !in db then (NotFound(NotFoundMessage), [])
    else
      var (mail, outcome) := SendEnquiryEmail(env, db[id], date, transport);
      if outcome.Ok? then (Done(EnquirySentMessage), [mail])
      else (ServerError(EnquiryFailedMessage), [mail])
  }

  /** The router's state: the staging directory, the upload log and the
      item table. */
  class ItemsRouter {
    var disk: set<string>
    var uploadCalls: seq<string>
    var db: map<string, Item>

    function State(): (s: Backend)
      reads this
    {
      Backend(disk, uploadCalls, db)
    }

    constructor (items: map<string, Item>)
      ensures State() == Backend({}, [], items)
    {
      disk := {};
      uploadCalls := [];
      db := items;
    }

    /** The handler of POST `/` once multer has staged the files. */
    method CreateItem(body: Body, files: Files, storage: map<string, string>,
                      newId: string, createdAt: string, insertFails: bool)
      returns (resp: Response)
      modifies this
      ensures (resp, State()) == CreateSpec(old(State()), body, files, storage, newId, createdAt, insertFails)
    {
      if !FieldsPresent(body) {
        return BadRequest(FieldsRequiredMessage);
      }
      if |files.cover| == 0 {
        return BadRequest(CoverRequiredMessage);
      }
      var coverPath := files.cover[0].path;
      uploadCalls := uploadCalls + [coverPath];
      if coverPath !in storage {
        return ServerError(CreateFailedMessage);
      }
      var coverUrl := storage[coverPath];

      // Promise.all: every request is issued, then the results are awaited.
      var imagePaths := Paths(files.images);
      var urls: seq<string> := [];
      var failed := false;
      var i := 0;
      while i < |imagePaths|
        invariant 0 <= i <= |imagePaths|
        invariant uploadCalls == old(uploadCalls) + [coverPath] + imagePaths[..i]
        invariant failed <==> !AllUploaded(imagePaths[..i], storage)
        invariant !failed ==> urls == Urls(imagePaths[..i], storage)
        invariant disk == old(disk) && db == old(db)
      {
        var p := imagePaths[i];
        uploadCalls := uploadCalls + [p];
        if p in storage {
          if !failed {
            UrlsAppend(imagePaths[..i], p, storage);
          }
          urls := urls + [storage[p]];
        } else {
          failed := true;
        }
        assert imagePaths[..i + 1] == imagePaths[..i] + [p];
        i := i + 1;
      }
      assert imagePaths[..i] == imagePaths;
      if failed {
        return ServerError(CreateFailedMessage);
      }

      // Clean up local files.
      var staged := [coverPath] + imagePaths;
      var j := 0;
      while j < |staged| && staged[j] in disk
        invariant 0 <= j <= |staged|
        invariant UnlinkAll(disk, staged[j..]) == UnlinkAll(old(disk), staged)
        invariant uploadCalls == old(uploadCalls) + [coverPath] + imagePaths && db == old(db)
      {
        assert staged[j..][1..] == staged[j + 1..];
        disk := disk - {staged[j]};
        j := j + 1;
      }
      if j < |staged| {
        return ServerError(CreateFailedMessage);
      }
      if insertFails || newId in db {
        return ServerError(CreateFailedMessage);
      }
      var item := NewItem(body, coverUrl, urls, newId, createdAt);
      db := db[newId := item];
      return Created(CreatedMessage, item);
    }

    /** POST `/`: multer's intake, then the handler. */
    method Post(parts: seq<Part>, body: Body, storage: map<string, string>,
                newId: string, createdAt: string, insertFails: bool)
      returns (resp: Response)
      modifies this
      ensures (resp, State()) == PostSpec(old(State()), parts, body, storage, newId, createdAt, insertFails)
    {
      match Intake(parts)
      case Err(e) =>
        return UploadRejected(e);
      case Ok(files) =>
        disk := disk + set p | p in StagedPaths(files);
        resp := CreateItem(body, files, storage, newId, createdAt, insertFails);
    }
  }

  // ---------------------------------------------------------------------
  // properties of the creation handler
  // ---------------------------------------------------------------------

  /** Removing staged files succeeds exactly when every path is still in the
      directory and no path is listed twice; it then removes exactly those
      paths. It never adds a file. */
  lemma {:induction false} UnlinkAllSpec(disk: set<string>, paths: seq<string>)
    ensures UnlinkAll(disk, paths).0 <= disk
    ensures UnlinkAll(disk, paths).1 <==>
      (forall i :: 0 <= i < |paths| ==> paths[i] in disk) && NoDuplicates(paths)
    ensures UnlinkAll(disk, paths).1 ==> UnlinkAll(disk, paths).0 == disk - set p | p in paths
    decreases |paths|
  {
    if paths != [] {
      var rest := paths[1..];
      if paths[0] in disk {
        var disk' := disk - {paths[0]};
        UnlinkAllSpec(disk', rest);
        if UnlinkAll(disk', rest).1 {
          forall i | 1 <= i < |paths| ensures paths[i] != paths[0] {
            assert rest[i - 1] in disk';
          }
          assert (set p | p in paths) == {paths[0]} + set p | p in rest;
        }
      }
    }
  }

  /** The URL list is built in request order: one more uploaded path adds
      its URL at the end and leaves the earlier URLs as they were. */
  /** The paths of two lists of staged files, one after the other. */
  lemma PathsAppend(a: seq<StagedFile>, b: seq<StagedFile>)
    ensures Paths(a + b) == Paths(a) + Paths(b)
  {
    forall i | 0 <= i < |a| + |b| ensures Paths(a + b)[i] == (Paths(a) + Paths(b))[i] {
      if i < |a| { assert (a + b)[i] == a[i]; } else { assert (a + b)[i] == b[i - |a|]; }
    }
  }

  lemma UrlsAppend(paths: seq<string>, p: string, storage: map<string, string>)
    requires AllUploaded(paths + [p], storage)
    ensures AllUploaded(paths, storage) && p in storage
    ensures Urls(paths + [p], storage) == Urls(paths, storage) + [storage[p]]
  {
    forall i | 0 <= i < |paths| ensures paths[i] in storage {
      assert (paths + [p])[i] == paths[i];
    }
    assert (paths + [p])[|paths|] == p;
  }

  /** A submission missing a text field is refused first, with 400, and
      nothing is uploaded, removed or inserted. */
  lemma MissingFieldIsRefusedFirst(st: Backend, body: Body, files: Files, storage: map<string, string>,
                                   newId: string, createdAt: string, insertFails: bool)
    requires !FieldsPresent(body)
    ensures CreateSpec(st, body, files, storage, newId, createdAt, insertFails) ==
      (BadRequest(FieldsRequiredMessage), st)
  {
  }

  /** With the text fields present but no cover, the answer is 400 and
      nothing is uploaded, removed or inserted. */
  lemma MissingCoverIsRefused(st: Backend, body: Body, files: Files, storage: map<string, string>,
                              newId: string, createdAt: string, insertFails: bool)
    requires FieldsPresent(body) && files.cover == []
    ensures CreateSpec(st, body, files, storage, newId, createdAt, insertFails) ==
      (BadRequest(CoverRequiredMessage), st)
  {
  }

  /** Once the submission is valid, the cover is sent to the image host
      before any additional image; the additional images are sent, in order,
      only when the cover was taken. */
  lemma CoverUploadedFirst(st: Backend, body: Body, files: Files, storage: map<string, string>,
                           newId: string, createdAt: string, insertFails: bool)
    requires FieldsPresent(body) && files.cover != []
    ensures var st' := CreateSpec(st, body, files, storage, newId, createdAt, insertFails).1;
      st'.uploadCalls == st.uploadCalls + [files.cover[0].path] +
        (if files.cover[0].path in storage then Paths(files.images) else [])
  {
  }

  /** An item is created exactly when the fields and the cover are there,
      every upload is taken, every staged file can be removed, and the insert
      goes through. */
  lemma CreatedIff(st: Backend, body: Body, files: Files, storage: map<string, string>,
                   newId: string, createdAt: string, insertFails: bool)
    ensures CreateSpec(st, body, files, storage, newId, createdAt, insertFails).0.Created? <==>
      FieldsPresent(body) && files.cover != [] &&
      files.cover[0].path in storage && AllUploaded(Paths(files.images), storage) &&
      UnlinkAll(st.disk, [files.cover[0].path] + Paths(files.images)).1 &&
      !insertFails && newId !in st.db
  {
  }

  /** A created item carries the submitted text fields, the cover's URL and
      the additional URLs in the order the files were submitted; it is the
      one new row of the table, and the staged files are gone. */
  lemma CreatedRecord(st: Backend, body: Body, files: Files, storage: map<string, string>,
                      newId: string, createdAt: string, insertFails: bool)
    requires CreateSpec(st, body, files, storage, newId, createdAt, insertFails).0.Created?
    ensures var (resp, st') := CreateSpec(st, body, files, storage, newId, createdAt, insertFails);
      resp.Status() == 201 && resp.message == CreatedMessage &&
      Some(resp.item.name) == body.name && Some(resp.item.itemType) == body.itemType &&
      Some(resp.item.description) == body.description &&
      resp.item.coverImage == storage[files.cover[0].path] &&
      |resp.item.images| == |files.images| &&
      (forall k :: 0 <= k < |files.images| ==>
        files.images[k].path in storage && resp.item.images[k] == storage[files.images[k].path]) &&
      st'.db == st.db[newId := resp.item] && newId !in st.db && |st'.db| == |st.db| + 1 &&
      st'.disk == st.disk - set p | p in [files.cover[0].path] + Paths(files.images)
  {
    CreatedIff(st, body, files, storage, newId, createdAt, insertFails);
    UnlinkAllSpec(st.disk, [files.cover[0].path] + Paths(files.images));
    forall k | 0 <= k < |files.images| ensures files.images[k].path in storage {
      assert Paths(files.images)[k] == files.images[k].path;
    }
  }

  /** Any answer other than 201 leaves the table as it was, and is either a
      400 from validation or a 500 "Failed to create item". */
  lemma FailureInsertsNothing(st: Backend, body: Body, files: Files, storage: map<string, string>,
                              newId: string, createdAt: string, insertFails: bool)
    requires !CreateSpec(st, body, files, storage, newId, createdAt, insertFails).0.Created?
    ensures var (resp, st') := CreateSpec(st, body, files, storage, newId, createdAt, insertFails);
      st'.db == st.db &&
      (resp == BadRequest(FieldsRequiredMessage) || resp == BadRequest(CoverRequiredMessage) ||
       resp == ServerError(CreateFailedMessage))
  {
  }

  /** Staged files are only removed after every upload was taken: when an
      upload fails the directory is as it was, and whenever a file was
      removed, all uploads had succeeded. Once every upload was taken the
      staged files are removed before the insert, so the directory is the
      same whether the insert then succeeds, fails or meets a taken id. */
  lemma CleanupOnlyAfterUploads(st: Backend, body: Body, files: Files, storage: map<string, string>,
                                newId: string, createdAt: string, insertFails: bool)
    ensures var st' := CreateSpec(st, body, files, storage, newId, createdAt, insertFails).1;
      st'.disk <= st.disk &&
      (st'.disk != st.disk ==>
        FieldsPresent(body) && files.cover != [] &&
        files.cover[0].path in storage && AllUploaded(Paths(files.images), storage))
    ensures FieldsPresent(body) && files.cover != [] && files.cover[0].path in storage &&
            AllUploaded(Paths(files.images), storage) ==>
      CreateSpec(st, body, files, storage, newId, createdAt, insertFails).1.disk ==
        UnlinkAll(st.disk, [files.cover[0].path] + Paths(files.images)).0
  {
    if FieldsPresent(body) && files.cover != [] && files.cover[0].path in storage &&
       AllUploaded(Paths(files.images), storage) {
      UnlinkAllSpec(st.disk, [files.cover[0].path] + Paths(files.images));
    }
  }

  /** A submission multer refuses changes nothing; one it accepts but the
      handler refuses with 400 leaves every staged file in the directory. */
  lemma StagedFilesLeftOnBadRequest(st: Backend, parts: seq<Part>, body: Body, storage: map<string, string>,
                                    newId: string, createdAt: string, insertFails: bool)
    ensures Intake(parts).Err? ==>
      PostSpec(st, parts, body, storage, newId, createdAt, insertFails) == (UploadRejected(Intake(parts).error), st)
    ensures Intake(parts).Ok? && PostSpec(st, parts, body, storage, newId, createdAt, insertFails).0.BadRequest? ==>
      PostSpec(st, parts, body, storage, newId, createdAt, insertFails).1 ==
        st.(disk := st.disk + set p | p in StagedPaths(Intake(parts).value))
  {
  }

  // ---------------------------------------------------------------------
  // properties of the read and enquiry routes
  // ---------------------------------------------------------------------

  /** A reachable database answers 404 exactly for an unknown id and the
      stored item otherwise. */
  lemma GetItemSpec(db: map<string, Item>, id: string)
    ensures GetItem(db, id, false).NotFound? <==> id !in db
    ensures id in db ==> GetItem(db, id, false) == Found(db[id])
    ensures GetItem(db, id, true).Status() == 500
  {
  }

  /** An enquiry about an unknown id answers 404 and sends no mail. */
  lemma EnquireUnknownSendsNothing(db: map<string, Item>, id: string, env: MailEnv, date: string,
                                   transport: SendResult)
    requires id !in db
    ensures Enquire(db, id, false, env, date, transport) == (NotFound(NotFoundMessage), [])
  {
  }

  /** An enquiry about a stored item hands exactly one message, the rendered
      enquiry for that item, to the transport; the answer is 200 exactly when
      the transport delivered it and 500 otherwise. */
  lemma EnquireSendsTheEnquiry(db: map<string, Item>, id: string, env: MailEnv, date: string,
                               transport: SendResult)
    requires id in db
    ensures Enquire(db, id, false, env, date, transport).1 == [EnquiryMail(env, db[id], date)]
    ensures Enquire(db, id, false, env, date, transport).0.Status() == 200 <==> transport == Sent
    ensures transport.SendFailed? ==>
      Enquire(db, id, false, env, date, transport).0 == ServerError(EnquiryFailedMessage)
  {
  }
}
