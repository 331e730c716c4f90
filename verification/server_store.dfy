/** The server's task store (server.js): the array of records behind
    `/api/tasks`, the validation and record construction of a POST, the
    filter of a DELETE and the name multer gives an uploaded file. Writing
    the array to `tasks.json` after each change is a JSON round trip and
    leaves it as it is. */
module ServerStore {
  import opened Wrappers
  import opened JsText
  import opened Tasks

  /** The fixed-shape record a POST stores: exactly these eleven properties,
      each holding whatever the request supplied (`undefined` when absent). */
  datatype StoredTask = StoredTask(
    taskId: JsValue,
    project: JsValue,
    taskName: JsValue,
    taskDescription: JsValue,
    taskDocumentationName: JsValue,
    taskDocumentationKey: JsValue,
    responsiblePerson: JsValue,
    internalDeadline: JsValue,
    userDeadline: JsValue,
    functionalTaskId: JsValue,
    estimateDeadline: JsValue)

  /** The body properties a record copies as they are. */
  const CopiedKeys: set<string> := {
    "taskId", "project", "taskName", "taskDescription", "responsiblePerson",
    "internalDeadline", "userDeadline", "functionalTaskId", "estimateDeadline"
  }

  /** `record[key]`: the eleven properties of a record; any other reads as
      `undefined`. */
  function Property(t: StoredTask, key: string): JsValue {
    if key == "taskId" then t.taskId
    else if key == "project" then t.project
    else if key == "taskName" then t.taskName
    else if key == "taskDescription" then t.taskDescription
    else if key == DocNameKey then t.taskDocumentationName
    else if key == DocKeyKey then t.taskDocumentationKey
    else if key == "responsiblePerson" then t.responsiblePerson
    else if key == "internalDeadline" then t.internalDeadline
    else if key == "userDeadline" then t.userDeadline
    else if key == "functionalTaskId" then t.functionalTaskId
    else if key == "estimateDeadline" then t.estimateDeadline
    else Undefined
  }

  // ---------------------------------------------------------------------------
  // POST /api/tasks

  /** The three properties a POST must carry, each truthy: a missing or empty
      one is refused. */
  predicate HasRequiredFields(body: Fields) {
    Truthy(Get(body, "taskId")) && Truthy(Get(body, "project")) && Truthy(Get(body, "taskName"))
  }

  /** The record built from a request body and the stored name of the
      uploaded file, if there was one. */
  function MakeRecord(body: Fields, upload: Option<string>): (t: StoredTask)
    ensures forall k :: k in CopiedKeys ==> Property(t, k) == Get(body, k)
    ensures forall k :: k !in CopiedKeys && k != DocNameKey && k != DocKeyKey ==> Property(t, k) == Undefined
    ensures Property(t, DocNameKey) == Property(t, DocKeyKey)
    ensures upload.Some? <==> Property(t, DocKeyKey).Str?
    ensures upload.Some? ==> Property(t, DocKeyKey) == Str(upload.value)
    ensures upload.None? ==> Property(t, DocKeyKey) == Null
  {
    var doc := if upload.Some? then Str(upload.value) else Null;
    StoredTask(
      Get(body, "taskId"), Get(body, "project"), Get(body, "taskName"),
      Get(body, "taskDescription"), doc, doc,
      Get(body, "responsiblePerson"), Get(body, "internalDeadline"),
      Get(body, "userDeadline"), Get(body, "functionalTaskId"),
      Get(body, "estimateDeadline"))
  }

  /** The answer to a POST: 400 with no record, or 201 with the record. */
  datatype PostReply = BadRequest | Created(record: StoredTask)

  function StatusOf(reply: PostReply): (code: nat)
    ensures code == 400 <==> reply.BadRequest?
    ensures code == 201 <==> reply.Created?
  {
    match reply
    case BadRequest => 400
    case Created(_) => 201
  }

  /** The POST handler: the store after the request and the reply. A refused
      request leaves the store alone; an accepted one appends the record it
      answers with. No identifier is allocated and none is checked for
      uniqueness. */
  function Post(tasks: seq<StoredTask>, body: Fields, upload: Option<string>): (r: (seq<StoredTask>, PostReply))
    ensures r.1.BadRequest? <==> !HasRequiredFields(body)
    ensures r.1.BadRequest? ==> r.0 == tasks
    ensures r.1.Created? ==> r.0 == tasks + [r.1.record] && r.1.record == MakeRecord(body, upload)
  {
    if !HasRequiredFields(body) then (tasks, BadRequest)
    else
      var record := MakeRecord(body, upload);
      (tasks + [record], Created(record))
  }

  /** The status answered to a POST follows the validation of the body:
      400 when `taskId`, `project` or `taskName` is missing or empty, 201
      otherwise. */
  lemma PostStatus(tasks: seq<StoredTask>, body: Fields, upload: Option<string>)
    ensures StatusOf(Post(tasks, body, upload).1) == if HasRequiredFields(body) then 201 else 400
  {
  }

  /** The stored identifier is the one the client sent, even when a record
      with it is already there: both records stay, under the same id. */
  lemma DuplicateIdAccepted(tasks: seq<StoredTask>, body: Fields, upload: Option<string>, i: nat)
    requires HasRequiredFields(body)
    requires i < |tasks| && tasks[i].taskId == Get(body, "taskId")
    ensures var (after, reply) := Post(tasks, body, upload);
            && reply.Created?
            && |after| == |tasks| + 1
            && after[i] == tasks[i]
            && after[|tasks|].taskId == tasks[i].taskId
  {
    assert Property(MakeRecord(body, upload), "taskId") == Get(body, "taskId");
  }

  // ---------------------------------------------------------------------------
  // DELETE /api/tasks/:taskId

  const DeleteStatus := 204

  /** `tasks.filter(task => task.taskId !== taskId)`: every record with the
      identifier goes, the rest stay in order. */
  function Delete(tasks: seq<StoredTask>, id: string): (r: seq<StoredTask>)
    ensures forall t :: t in r <==> t in tasks && t.taskId != Str(id)
    ensures |r| <= |tasks|
  {
    if |tasks| == 0 then []
    else
      var rest := Delete(tasks[1..], id);
      assert tasks == [tasks[0]] + tasks[1..];
      if tasks[0].taskId == Str(id) then rest else [tasks[0]] + rest
  }

  /** One record is kept exactly when its identifier differs. */
  lemma DeleteSingle(t: StoredTask, id: string)
    ensures Delete([t], id) == if t.taskId == Str(id) then [] else [t]
  {
    assert [t][1..] == [];
  }

  /** Deleting from a concatenation deletes from each part: the records kept
      keep their relative order. */
  lemma {:induction false} DeleteConcat(a: seq<StoredTask>, b: seq<StoredTask>, id: string)
    ensures Delete(a + b, id) == Delete(a, id) + Delete(b, id)
    decreases |a|
  {
    if |a| == 0 {
      assert a + b == b;
    } else {
      assert (a + b)[0] == a[0];
      assert (a + b)[1..] == a[1..] + b;
      DeleteConcat(a[1..], b, id);
    }
  }

  /** The store is unchanged exactly when no record has the identifier. */
  lemma {:induction false} DeleteUnknownIsNoop(tasks: seq<StoredTask>, id: string)
    ensures Delete(tasks, id) == tasks <==> forall i :: 0 <= i < |tasks| ==> tasks[i].taskId != Str(id)
    decreases |tasks|
  {
    if |tasks| > 0 {
      DeleteUnknownIsNoop(tasks[1..], id);
      assert tasks == [tasks[0]] + tasks[1..];
      if Delete(tasks, id) == tasks {
        forall i | 0 <= i < |tasks|
          ensures tasks[i].taskId != Str(id)
        {
          assert tasks[i] in Delete(tasks, id);
        }
      }
      if forall i :: 0 <= i < |tasks| ==> tasks[i].taskId != Str(id) {
        assert forall i :: 0 <= i < |tasks| - 1 ==> tasks[1..][i] == tasks[i + 1];
      }
    }
  }

  /** Deleting twice is deleting once. */
  lemma DeleteIdempotent(tasks: seq<StoredTask>, id: string)
    ensures Delete(Delete(tasks, id), id) == Delete(tasks, id)
  {
    var once := Delete(tasks, id);
    forall i | 0 <= i < |once|
      ensures once[i].taskId != Str(id)
    {
      assert once[i] in once;
    }
    DeleteUnknownIsNoop(once, id);
  }

  /** The DELETE handler: the store after the filter, and the status. The
      status is `DeleteStatus` whether or not a record was removed, and the
      store is left as it is exactly when no record has the identifier. */
  function DeleteHandler(tasks: seq<StoredTask>, id: string): (r: (seq<StoredTask>, nat))
    ensures r.1 == DeleteStatus
    ensures r.0 == Delete(tasks, id)
    ensures r.0 == tasks <==> forall i :: 0 <= i < |tasks| ==> tasks[i].taskId != Str(id)
  {
    DeleteUnknownIsNoop(tasks, id);
    (Delete(tasks, id), DeleteStatus)
  }

  /** A record posted and then deleted by its identifier leaves the store as
      deleting alone would. */
  lemma PostThenDelete(tasks: seq<StoredTask>, body: Fields, upload: Option<string>, id: string)
    requires HasRequiredFields(body) && Get(body, "taskId") == Str(id)
    ensures Delete(Post(tasks, body, upload).0, id) == Delete(tasks, id)
  {
    var record := MakeRecord(body, upload);
    assert Property(record, "taskId") == Str(id);
    DeleteConcat(tasks, [record], id);
    DeleteSingle(record, id);
    assert Delete(tasks, id) + [] == Delete(tasks, id);
  }

  // ---------------------------------------------------------------------------
  // The stored name of an upload

  /** multer's `filename` rule: `Date.now() + '-' + Math.round(Math.random() * 1E9)`,
      then `_` and the original name. `now` and `random` are the two numbers
      the clock and the generator produced. */
  function UploadName(now: nat, random: nat, original: string): (name: string)
    ensures EndsWith(name, "_" + original)
    ensures BeforeFirst(name, '_') == ToDecimal(now) + "-" + ToDecimal(random)
    ensures |name| == |ToDecimal(now)| + 1 + |ToDecimal(random)| + 1 + |original|
  {
    var stamp := ToDecimal(now) + "-" + ToDecimal(random);
    DecimalLacks(now, '_');
    DecimalLacks(random, '_');
    BeforeFirstAt(stamp, '_', original);
    stamp + "_" + original
  }

  /** Different clock, random or original values give different stored
      names: the three can be read back from the name. */
  lemma UploadNameInjective(now1: nat, random1: nat, original1: string, now2: nat, random2: nat, original2: string)
    requires UploadName(now1, random1, original1) == UploadName(now2, random2, original2)
    ensures now1 == now2 && random1 == random2 && original1 == original2
  {
    var name := UploadName(now1, random1, original1);
    var d1, d2 := ToDecimal(now1), ToDecimal(now2);
    var e1, e2 := ToDecimal(random1), ToDecimal(random2);
    var stamp := d1 + "-" + e1;
    assert stamp == d2 + "-" + e2;
    assert original1 == name[|stamp| + 1..] == original2;
    DecimalLacks(now1, '-');
    DecimalLacks(now2, '-');
    BeforeFirstAt(d1, '-', e1);
    BeforeFirstAt(d2, '-', e2);
    assert d1 == d2;
    assert e1 == stamp[|d1| + 1..] == e2;
    assert now1 == DigitsValue(d1) == DigitsValue(d2) == now2;
    assert random1 == DigitsValue(e1) == DigitsValue(e2) == random2;
  }
}
