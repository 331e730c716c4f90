/** The browser client's operations on its array of tasks (script.js): the
    array part of creating a task from a submitted form, the category views
    the two tables are filled from, clearing a task and saving an edited
    one. The array is the whole state; saving it to `localStorage` after a
    successful operation is a JSON round trip and leaves it as it is. */
module ClientStore {
  import opened Wrappers
  import opened JsText
  import opened Tasks
  import opened IdAllocator
  import opened DocCodec

  // ---------------------------------------------------------------------------
  // Creating a task from a submitted form

  datatype FileInfo = FileInfo(name: string, mime: string)

  /** A `FormData` value: text, or a `File` (a file input always yields a
      `File`, an empty one when nothing was picked). */
  datatype FormValue = Text(s: string) | Upload(file: FileInfo)

  datatype FormEntry = FormEntry(key: string, value: FormValue)

  const DocField := "taskDocumentation"

  /** Whether an entry throws: a text value under the file entry's name is
      read as `file = null`, and `file.name` then throws. */
  predicate Throws(e: FormEntry) {
    e.key == DocField && e.value.Text?
  }

  /** The properties an entry that does not throw writes: the file entry
      writes the file's name, type and storage key, any other entry its own
      name. */
  function WrittenKeys(e: FormEntry): set<string> {
    if e.key == DocField then {DocNameKey, DocTypeKey, DocKeyKey} else {e.key}
  }

  /** Whether entry `e` writes property `k`. */
  predicate Writes(e: FormEntry, k: string) {
    !Throws(e) && k in WrittenKeys(e)
  }

  /** The properties one form entry writes onto the new task object. The
      file entry's key is built from the file's name; any other entry is
      copied under its own name (a `File` there is an object, which the JSON
      round trip turns into `{}`). */
  function EntryWrites(e: FormEntry, now: nat): (r: Result<Fields, JsError>)
    ensures r.Failure? <==> Throws(e)
    ensures r.Success? ==> r.value.Keys == WrittenKeys(e)
    ensures r.Success? && e.key == DocField ==> r.value[DocKeyKey] == Str(DocKey(now, e.value.file.name))
    ensures r.Success? && e.key == DocField ==>
              r.value[DocNameKey] == Str(e.value.file.name) && r.value[DocTypeKey] == Str(e.value.file.mime)
    ensures r.Success? && e.key != DocField && e.value.Upload? ==> r.value[e.key] == Composite
    ensures r.Success? && e.key != DocField && e.value.Text? ==> r.value[e.key] == Str(e.value.s)
  {
    if e.key == DocField then
      match e.value
      case Upload(f) =>
        Success(map[DocNameKey := Str(f.name), DocTypeKey := Str(f.mime), DocKeyKey := Str(DocKey(now, f.name))])
      case Text(_) => Failure(TypeError)
    else
      match e.value
      case Text(s) => Success(map[e.key := Str(s)])
      case Upload(_) => Success(map[e.key := Composite])
  }

  /** The properties of the new task once `formData.forEach` has visited
      every entry in order; a throwing entry aborts the whole submission.
      The result holds exactly the properties some entry writes. */
  function BuildFields(entries: seq<FormEntry>, now: nat): (r: Result<Fields, JsError>)
    ensures r.Failure? <==> exists i :: 0 <= i < |entries| && Throws(entries[i])
    ensures r.Success? ==> forall k :: k in r.value ==> exists i :: 0 <= i < |entries| && Writes(entries[i], k)
    ensures r.Success? ==> forall i, k :: 0 <= i < |entries| && Writes(entries[i], k) ==> k in r.value
  {
    if |entries| == 0 then Success(map[])
    else
      var front := entries[..|entries| - 1];
      var last := entries[|entries| - 1];
      assert entries == front + [last];
      match BuildFields(front, now)
      case Failure(e) =>
        ThrowsInFront(front, last);
        Failure(e)
      case Success(fields) =>
        match EntryWrites(last, now)
        case Failure(e) =>
          assert Throws(entries[|entries| - 1]);
          Failure(e)
        case Success(w) =>
          ThrowsInFront(front, last);
          WritesAfterStep(front, last, fields, w);
          Success(fields + w)
  }

  /** An entry that throws among the first ones throws in the whole
      sequence, and one that throws in the whole sequence is among the first
      ones or is the last. */
  lemma ThrowsInFront(front: seq<FormEntry>, last: FormEntry)
    ensures (exists i :: 0 <= i < |front + [last]| && Throws((front + [last])[i])) <==>
              (exists i :: 0 <= i < |front| && Throws(front[i])) || Throws(last)
  {
    var all := front + [last];
    if exists i :: 0 <= i < |front| && Throws(front[i]) {
      var i :| 0 <= i < |front| && Throws(front[i]);
      assert all[i] == front[i];
    }
    if exists i :: 0 <= i < |all| && Throws(all[i]) {
      var i :| 0 <= i < |all| && Throws(all[i]);
      if i < |front| {
        assert all[i] == front[i];
      }
    }
    if Throws(last) {
      assert all[|front|] == last;
    }
  }

  /** The properties written after one more entry are those written before
      together with the ones that entry writes. */
  lemma WritesAfterStep(front: seq<FormEntry>, last: FormEntry, fields: Fields, w: Fields)
    requires forall k :: k in fields ==> exists i :: 0 <= i < |front| && Writes(front[i], k)
    requires forall i, k :: 0 <= i < |front| && Writes(front[i], k) ==> k in fields
    requires !Throws(last) && w.Keys == WrittenKeys(last)
    ensures forall k :: k in fields + w ==> exists i :: 0 <= i < |front + [last]| && Writes((front + [last])[i], k)
    ensures forall i, k :: 0 <= i < |front + [last]| && Writes((front + [last])[i], k) ==> k in fields + w
  {
    var all := front + [last];
    forall k | k in fields + w
      ensures exists i :: 0 <= i < |all| && Writes(all[i], k)
    {
      if k in w {
        assert all[|front|] == last;
        assert Writes(all[|front|], k);
      } else {
        var i :| 0 <= i < |front| && Writes(front[i], k);
        assert all[i] == front[i];
      }
    }
    forall i, k | 0 <= i < |all| && Writes(all[i], k)
      ensures k in fields + w
    {
      if i < |front| {
        assert all[i] == front[i];
      }
    }
  }

  /** One step of the fold: a successful build is the build of all entries
      but the last, overwritten by what the last one writes. */
  lemma BuildFieldsStep(entries: seq<FormEntry>, now: nat)
    requires |entries| > 0 && BuildFields(entries, now).Success?
    ensures BuildFields(entries[..|entries| - 1], now).Success?
    ensures EntryWrites(entries[|entries| - 1], now).Success?
    ensures BuildFields(entries, now).value ==
              BuildFields(entries[..|entries| - 1], now).value + EntryWrites(entries[|entries| - 1], now).value
  {
  }

  /** The last entry that writes a property decides its value. */
  lemma {:induction false} LastWriterWins(entries: seq<FormEntry>, now: nat, k: string, i: nat)
    requires BuildFields(entries, now).Success?
    requires i < |entries| && Writes(entries[i], k)
    requires forall j :: i < j < |entries| ==> !Writes(entries[j], k)
    ensures k in BuildFields(entries, now).value
    ensures BuildFields(entries, now).value[k] == EntryWrites(entries[i], now).value[k]
    decreases |entries|
  {
    var n := |entries|;
    var front := entries[..n - 1];
    BuildFieldsStep(entries, now);
    if i < n - 1 {
      LaterEntriesSilent(entries, front, k, i);
      assert front[i] == entries[i];
      LastWriterWins(front, now, k, i);
    }
  }

  /** When no entry after position `i` writes `k`, neither the last entry
      nor any entry after `i` among the others does. */
  lemma LaterEntriesSilent(entries: seq<FormEntry>, front: seq<FormEntry>, k: string, i: nat)
    requires i < |entries| - 1 && front == entries[..|entries| - 1]
    requires forall j :: i < j < |entries| ==> !Writes(entries[j], k)
    ensures !Writes(entries[|entries| - 1], k)
    ensures forall j :: i < j < |front| ==> !Writes(front[j], k)
  {
    assert forall j :: i < j < |front| ==> front[j] == entries[j];
  }

  /** `addTaskToTable`, array part: the task built from the form, with
      `taskId` set to the allocated identifier (overwriting a form field of
      that name), is pushed at the end. Nothing changes when building it
      throws. */
  function AddTask(tasks: seq<Task>, entries: seq<FormEntry>, isFunctionalTeam: bool, now: nat): (r: Result<seq<Task>, JsError>)
    ensures r.Failure? <==> BuildFields(entries, now).Failure?
    ensures r.Success? ==> |r.value| == |tasks| + 1 && r.value[..|tasks|] == tasks
    ensures r.Success? ==> IdOf(r.value[|tasks|]) == Str(NextTaskId(tasks, isFunctionalTeam))
    ensures r.Success? ==> forall j :: 0 <= j < |tasks| ==> IdOf(tasks[j]) != IdOf(r.value[|tasks|])
    ensures r.Success? ==> forall k :: k != TaskIdKey ==>
              Get(r.value[|tasks|].fields, k) == Get(BuildFields(entries, now).value, k)
  {
    match BuildFields(entries, now)
    case Failure(e) => Failure(e)
    case Success(fields) =>
      var t := Task(fields[TaskIdKey := Str(NextTaskId(tasks, isFunctionalTeam))]);
      assert (tasks + [t])[..|tasks|] == tasks;
      Success(tasks + [t])
  }

  /** Without deletions in between, two successive creations in one
      category receive the numbers n and n + 1. */
  lemma SuccessiveCreationsCount(tasks: seq<Task>, entries: seq<FormEntry>, isFunctionalTeam: bool, now: nat)
    requires AddTask(tasks, entries, isFunctionalTeam, now).Success?
    ensures var after := AddTask(tasks, entries, isFunctionalTeam, now).value;
            ParseInt(NextTaskId(after, isFunctionalTeam)[2..]) == Some(MaxSuffix(tasks, isFunctionalTeam) + 2)
  {
    var after := AddTask(tasks, entries, isFunctionalTeam, now).value;
    var t := after[|tasks|];
    assert after == tasks + [t];
    AllocationAfterAllocation(tasks, isFunctionalTeam, t);
  }

  // ---------------------------------------------------------------------------
  // The two category views

  /** Whether a task is shown in a category's table: its identifier is a
      string with the category prefix. */
  predicate Listed(t: Task, isFunctionalTeam: bool) {
    IdOf(t).Str? && StartsWith(IdOf(t).s, PrefixFor(isFunctionalTeam))
  }

  /** The filter of `populateTable` can look at a task without throwing: the
      identifier is falsy or a string (`taskId.startsWith` is not a function
      on any other truthy value). */
  predicate Renderable(t: Task) {
    !Truthy(IdOf(t)) || IdOf(t).Str?
  }

  /** `task.taskId && task.taskId.startsWith(prefix)` */
  function InView(t: Task, isFunctionalTeam: bool): (r: Result<bool, JsError>)
    ensures r.Failure? <==> !Renderable(t)
    ensures r.Success? ==> (r.value <==> Listed(t, isFunctionalTeam))
  {
    var id := IdOf(t);
    if !Truthy(id) then Success(false)
    else
      match id
      case Str(s) => Success(StartsWith(s, PrefixFor(isFunctionalTeam)))
      case _ => Failure(TypeError)
  }

  /** `tasks.filter(...)` for the functional table (`FT`) or the technical
      table (`TT`): the listed tasks, in array order. */
  function View(tasks: seq<Task>, isFunctionalTeam: bool): (r: Result<seq<Task>, JsError>)
    ensures r.Failure? <==> exists i :: 0 <= i < |tasks| && !Renderable(tasks[i])
    ensures r.Success? ==> |r.value| <= |tasks|
  {
    if |tasks| == 0 then Success([])
    else
      var rest := View(tasks[1..], isFunctionalTeam);
      assert forall i :: 1 <= i < |tasks| ==> tasks[1..][i - 1] == tasks[i];
      match InView(tasks[0], isFunctionalTeam)
      case Failure(e) => Failure(e)
      case Success(shown) =>
        match rest
        case Failure(e) => Failure(e)
        case Success(listed) =>
          Success(if shown then [tasks[0]] + listed else listed)
  }

  /** A view that does not throw holds exactly the listed tasks of the
      array. */
  lemma {:induction false} ViewMembers(tasks: seq<Task>, isFunctionalTeam: bool)
    requires View(tasks, isFunctionalTeam).Success?
    ensures forall t :: t in View(tasks, isFunctionalTeam).value <==> t in tasks && Listed(t, isFunctionalTeam)
    decreases |tasks|
  {
    if |tasks| > 0 {
      var t, rest := tasks[0], tasks[1..];
      assert tasks == [t] + rest;
      ViewTail(tasks, isFunctionalTeam);
      ViewMembers(rest, isFunctionalTeam);
      ViewCons(t, rest, isFunctionalTeam);
    }
  }

  /** The view of a task in front of others: the task, when listed, in
      front of the others' view. */
  lemma ViewCons(t: Task, rest: seq<Task>, isFunctionalTeam: bool)
    requires Renderable(t) && View(rest, isFunctionalTeam).Success?
    ensures View([t] + rest, isFunctionalTeam) ==
              Success((if Listed(t, isFunctionalTeam) then [t] else []) + View(rest, isFunctionalTeam).value)
  {
    var tasks := [t] + rest;
    assert tasks[0] == t && tasks[1..] == rest;
    var listed := View(rest, isFunctionalTeam).value;
    assert InView(t, isFunctionalTeam) == Success(Listed(t, isFunctionalTeam));
    assert [] + listed == listed;
  }

  /** A view that does not throw looked at the first task without throwing
      and does not throw on the others either. */
  lemma ViewTail(tasks: seq<Task>, isFunctionalTeam: bool)
    requires |tasks| > 0 && View(tasks, isFunctionalTeam).Success?
    ensures Renderable(tasks[0]) && View(tasks[1..], isFunctionalTeam).Success?
  {
  }

  /** The view of a concatenation is the concatenation of the views: the
      view keeps the array order and every occurrence. */
  lemma {:induction false} ViewConcat(a: seq<Task>, b: seq<Task>, isFunctionalTeam: bool)
    requires View(a, isFunctionalTeam).Success? && View(b, isFunctionalTeam).Success?
    ensures View(a + b, isFunctionalTeam) == Success(View(a, isFunctionalTeam).value + View(b, isFunctionalTeam).value)
    decreases |a|
  {
    if |a| == 0 {
      assert a + b == b;
      assert View(a, isFunctionalTeam).value == [];
      assert [] + View(b, isFunctionalTeam).value == View(b, isFunctionalTeam).value;
    } else {
      var t, rest := a[0], a[1..];
      assert a == [t] + rest;
      assert a + b == [t] + (rest + b);
      ViewTail(a, isFunctionalTeam);
      ViewConcat(rest, b, isFunctionalTeam);
      ViewConsConcat(t, rest, b, isFunctionalTeam);
    }
  }

  /** The inductive step of `ViewConcat`: putting one task in front of a
      concatenation whose view is already known. */
  lemma ViewConsConcat(t: Task, rest: seq<Task>, b: seq<Task>, isFunctionalTeam: bool)
    requires Renderable(t) && View(rest, isFunctionalTeam).Success? && View(b, isFunctionalTeam).Success?
    requires View(rest + b, isFunctionalTeam) == Success(View(rest, isFunctionalTeam).value + View(b, isFunctionalTeam).value)
    ensures View([t] + (rest + b), isFunctionalTeam) ==
              Success(View([t] + rest, isFunctionalTeam).value + View(b, isFunctionalTeam).value)
  {
    ViewCons(t, rest, isFunctionalTeam);
    ViewCons(t, rest + b, isFunctionalTeam);
    var head := if Listed(t, isFunctionalTeam) then [t] else [];
    var va := View(rest, isFunctionalTeam).value;
    var vb := View(b, isFunctionalTeam).value;
    assert head + (va + vb) == (head + va) + vb;
  }

  /** A one-task array is shown exactly when the task is listed. */
  lemma ViewSingle(t: Task, isFunctionalTeam: bool)
    requires Renderable(t)
    ensures View([t], isFunctionalTeam) == Success(if Listed(t, isFunctionalTeam) then [t] else [])
  {
    assert [t][1..] == [];
    assert View([], isFunctionalTeam) == Success([]);
    assert [t] + [] == [t];
  }

  /** No task is shown in both tables. */
  lemma ViewsDisjoint(tasks: seq<Task>)
    requires View(tasks, true).Success?
    ensures View(tasks, false).Success?
    ensures forall t :: t in View(tasks, true).value ==> t !in View(tasks, false).value
  {
    ViewMembers(tasks, true);
    ViewMembers(tasks, false);
    forall t | t in View(tasks, true).value
      ensures t !in View(tasks, false).value
    {
      assert IdOf(t).s[0] == 'F';
    }
  }

  /** A created task is shown in its own category's table and not in the
      other one. */
  lemma CreatedTaskIsListed(tasks: seq<Task>, entries: seq<FormEntry>, isFunctionalTeam: bool, now: nat)
    requires AddTask(tasks, entries, isFunctionalTeam, now).Success?
    ensures var t := AddTask(tasks, entries, isFunctionalTeam, now).value[|tasks|];
            Listed(t, isFunctionalTeam) && !Listed(t, !isFunctionalTeam)
  {
    var t := AddTask(tasks, entries, isFunctionalTeam, now).value[|tasks|];
    var id := NextTaskId(tasks, isFunctionalTeam);
    assert id[0] == PrefixFor(isFunctionalTeam)[0] != PrefixFor(!isFunctionalTeam)[0];
  }

  // ---------------------------------------------------------------------------
  // Clearing a task

  /** What `clearTask` leaves behind once the user confirmed. `Cleared`: the
      array after the removal, saved, and the `localStorage` key passed to
      `removeItem`. `ClearCrashed`: the removal happened in memory but the
      read after it threw, so nothing was saved and the tables were not
      redrawn. */
  datatype ClearOutcome =
    | ClearNotFound
    | Cleared(tasks: seq<Task>, deletedDocKey: JsValue)
    | ClearCrashed(tasks: seq<Task>)

  /** `tasks` without position `i`. */
  function RemoveAt(tasks: seq<Task>, i: nat): (r: seq<Task>)
    requires i < |tasks|
    ensures |r| == |tasks| - 1
    ensures r[..i] == tasks[..i] && r[i..] == tasks[i + 1..]
    ensures multiset(r) + multiset{tasks[i]} == multiset(tasks)
  {
    assert tasks == tasks[..i] + [tasks[i]] + tasks[i + 1..];
    tasks[..i] + tasks[i + 1..]
  }

  /** `clearTask` as written: it splices out the first task with the
      identifier and only then reads `tasks[taskIndex].taskDocumentationKey`,
      which is the key of the task that moved into the freed position; when
      the removed task was the last one that read is on `undefined` and
      throws. */
  function ClearAsWritten(tasks: seq<Task>, id: string): (r: ClearOutcome)
    ensures r.ClearNotFound? <==> forall j :: 0 <= j < |tasks| ==> IdOf(tasks[j]) != Str(id)
    ensures !r.ClearNotFound? ==>
              var i := FindIndex(tasks, id).value;
              r.tasks == RemoveAt(tasks, i) && (r.ClearCrashed? <==> i == |tasks| - 1)
    ensures r.Cleared? ==> r.deletedDocKey == DocKeyOf(tasks[FindIndex(tasks, id).value + 1])
  {
    match FindIndex(tasks, id)
    case None => ClearNotFound
    case Some(i) =>
      var rest := RemoveAt(tasks, i);
      if i < |rest| then Cleared(rest, DocKeyOf(rest[i])) else ClearCrashed(rest)
  }

  /** `clearTask` as evidently intended: the first task with the identifier
      is removed, its own attachment key is deleted, and the array is saved.
      An unknown identifier changes nothing. */
  function Clear(tasks: seq<Task>, id: string): (r: ClearOutcome)
    ensures r.ClearNotFound? <==> forall j :: 0 <= j < |tasks| ==> IdOf(tasks[j]) != Str(id)
    ensures !r.ClearCrashed?
    ensures r.Cleared? ==>
              var i := FindIndex(tasks, id).value;
              && IdOf(tasks[i]) == Str(id)
              && r.tasks == RemoveAt(tasks, i)
              && r.deletedDocKey == DocKeyOf(tasks[i])
  {
    match FindIndex(tasks, id)
    case None => ClearNotFound
    case Some(i) => Cleared(RemoveAt(tasks, i), DocKeyOf(tasks[i]))
  }

  /** Whether the attachment keys of the tasks that have one are pairwise
      different. */
  predicate DistinctDocKeys(tasks: seq<Task>) {
    forall i, j :: 0 <= i < j < |tasks| && DocKeyOf(tasks[i]).Str? ==> DocKeyOf(tasks[i]) != DocKeyOf(tasks[j])
  }

  /** With the intended clear, when attachment keys are distinct, the key it
      deletes belongs to no task that stays. */
  lemma ClearKeepsOthersDocuments(tasks: seq<Task>, id: string)
    requires DistinctDocKeys(tasks)
    requires Clear(tasks, id).Cleared? && Clear(tasks, id).deletedDocKey.Str?
    ensures forall t :: t in Clear(tasks, id).tasks ==> DocKeyOf(t) != Clear(tasks, id).deletedDocKey
  {
    var i := FindIndex(tasks, id).value;
    var rest := Clear(tasks, id).tasks;
    forall t | t in rest
      ensures DocKeyOf(t) != DocKeyOf(tasks[i])
    {
      var j :| 0 <= j < |rest| && rest[j] == t;
      if j < i {
        assert rest[j] == rest[..i][j] == tasks[j];
      } else {
        assert rest[j] == rest[i..][j - i] == tasks[j + 1];
      }
    }
  }

  /** The clear as written deletes the attachment of a task it keeps:
      clearing `FT01` out of `[FT01, FT02]` removes the file of `FT02`. */
  lemma ClearAsWrittenDeletesSuccessorDocument()
    ensures var a := Task(map[TaskIdKey := Str("FT01"), DocKeyKey := Str("taskDoc_1_a.pdf")]);
            var b := Task(map[TaskIdKey := Str("FT02"), DocKeyKey := Str("taskDoc_2_b.pdf")]);
            && DistinctDocKeys([a, b])
            && ClearAsWritten([a, b], "FT01") == Cleared([b], Str("taskDoc_2_b.pdf"))
            && DocKeyOf(b) == Str("taskDoc_2_b.pdf")
  {
    var a := Task(map[TaskIdKey := Str("FT01"), DocKeyKey := Str("taskDoc_1_a.pdf")]);
    var b := Task(map[TaskIdKey := Str("FT02"), DocKeyKey := Str("taskDoc_2_b.pdf")]);
    assert IdOf(a) == Str("FT01");
    assert FindIndex([a, b], "FT01") == Some(0);
    assert RemoveAt([a, b], 0) == [b];
  }

  /** The clear as written throws when the task is the last one, after the
      in-memory removal and before anything is saved. */
  lemma ClearAsWrittenCrashesOnLast()
    ensures var a := Task(map[TaskIdKey := Str("FT01")]);
            ClearAsWritten([a], "FT01") == ClearCrashed([])
  {
    var a := Task(map[TaskIdKey := Str("FT01")]);
    assert IdOf(a) == Str("FT01");
    assert FindIndex([a], "FT01") == Some(0);
  }

  /** A cleared number can be handed out again: clearing the only functional
      task `FT01` leaves the array empty in memory (the read after the splice
      throws, but the splice has happened), and the next functional
      identifier is then `FT` followed by `01` once more. */
  lemma ClearedNumberIsReissued()
    ensures var a := Task(map[TaskIdKey := Str("FT01")]);
            && ClearAsWritten([a], "FT01") == ClearCrashed([])
            && NextTaskId(ClearAsWritten([a], "FT01").tasks, true) == FunctionalPrefix + "01"
  {
    ClearAsWrittenCrashesOnLast();
    FirstIdentifier(true);
  }

  /** On an empty array the first identifier of a category is its prefix
      followed by `01`. */
  lemma FirstIdentifier(isFunctionalTeam: bool)
    ensures NextTaskId([], isFunctionalTeam) == PrefixFor(isFunctionalTeam) + "01"
  {
    assert MaxSuffix([], isFunctionalTeam) == 0;
    OnePadded();
  }

  /** `String(1).padStart(2, '0')` is `01`. */
  lemma OnePadded()
    ensures PadStart(ToDecimal(1), 2, '0') == "01"
  {
    assert ToDecimal(1) == "1";
  }

  // ---------------------------------------------------------------------------
  // Saving an edited task

  /** One input of the edited row: a text input named after a property, or
      the file input (named `taskDocumentation`) with the files picked. */
  datatype EditInput = TextInput(name: string, value: string) | DocInput(files: seq<FileInfo>)

  /** Whether applying input `e` writes property `k`. */
  predicate EditWrites(e: EditInput, k: string) {
    match e
    case TextInput(name, _) => name == k
    case DocInput(files) => |files| > 0 && k in {DocNameKey, DocTypeKey, DocKeyKey}
  }

  /** The loop of `saveEditedTask` over the row's inputs, in row order: a text
      input writes its value under its name, the file input with a file
      picked writes that file's name, type and a new storage key. A text
      input named `taskDocumentation` has no file input in its cell and the
      read of `.files` throws: the result then says `crashed` and holds the
      writes made before it (they were made on the stored object itself). */
  function ApplyEdits(fields: Fields, inputs: seq<EditInput>, now: nat): (r: (Fields, bool))
    ensures forall k :: (forall i :: 0 <= i < |inputs| ==> !EditWrites(inputs[i], k)) ==> Get(r.0, k) == Get(fields, k)
    ensures r.1 <==> exists i :: 0 <= i < |inputs| && inputs[i].TextInput? && inputs[i].name == DocField
    decreases |inputs|
  {
    if |inputs| == 0 then (fields, false)
    else
      assert forall i :: 1 <= i < |inputs| ==> inputs[1..][i - 1] == inputs[i];
      match inputs[0]
      case TextInput(name, value) =>
        if name == DocField then (fields, true)
        else ApplyEdits(fields[name := Str(value)], inputs[1..], now)
      case DocInput(files) =>
        if |files| > 0 then
          var f := files[0];
          ApplyEdits(fields[DocNameKey := Str(f.name)][DocTypeKey := Str(f.mime)][DocKeyKey := Str(DocKey(now, f.name))], inputs[1..], now)
        else
          ApplyEdits(fields, inputs[1..], now)
  }

  /** The value input `e` writes under property `k`: a text input its text,
      the file input the first file's name, type or a new storage key. */
  function EditValue(e: EditInput, k: string, now: nat): JsValue
    requires EditWrites(e, k)
  {
    match e
    case TextInput(_, value) => Str(value)
    case DocInput(files) =>
      if k == DocNameKey then Str(files[0].name)
      else if k == DocTypeKey then Str(files[0].mime)
      else Str(DocKey(now, files[0].name))
  }

  /** When the loop does not throw, the last input that writes a property
      decides its value. */
  lemma {:induction false} EditLastWriterWins(fields: Fields, inputs: seq<EditInput>, now: nat, k: string, i: nat)
    requires !ApplyEdits(fields, inputs, now).1
    requires i < |inputs| && EditWrites(inputs[i], k)
    requires forall j :: i < j < |inputs| ==> !EditWrites(inputs[j], k)
    ensures Get(ApplyEdits(fields, inputs, now).0, k) == EditValue(inputs[i], k, now)
    decreases |inputs|
  {
    var tail := inputs[1..];
    assert forall j :: 0 <= j < |tail| ==> tail[j] == inputs[j + 1];
    if i == 0 {
      match inputs[0]
      case TextInput(name, value) =>
        assert name != DocField;
        assert Get(ApplyEdits(fields[name := Str(value)], tail, now).0, k) == Str(value);
      case DocInput(files) =>
        var f := files[0];
        var updated := fields[DocNameKey := Str(f.name)][DocTypeKey := Str(f.mime)][DocKeyKey := Str(DocKey(now, f.name))];
        assert Get(ApplyEdits(updated, tail, now).0, k) == Get(updated, k);
    } else {
      match inputs[0]
      case TextInput(name, value) =>
        assert name != DocField;
        EditLastWriterWins(fields[name := Str(value)], tail, now, k, i - 1);
      case DocInput(files) =>
        if |files| > 0 {
          var f := files[0];
          EditLastWriterWins(fields[DocNameKey := Str(f.name)][DocTypeKey := Str(f.mime)][DocKeyKey := Str(DocKey(now, f.name))], tail, now, k, i - 1);
        } else {
          EditLastWriterWins(fields, tail, now, k, i - 1);
        }
    }
  }

  /** What `saveEditedTask` leaves behind. `Edited`: the array with the task
      updated, saved. `EditCrashed`: the task was partly updated in memory
      and nothing was saved. */
  datatype EditOutcome =
    | EditNotFound
    | Edited(tasks: seq<Task>)
    | EditCrashed(tasks: seq<Task>)

  /** `saveEditedTask`: the first task with the identifier is updated in
      place; every other task keeps its position and content, and an unknown
      identifier changes nothing. */
  function SaveEdit(tasks: seq<Task>, id: string, inputs: seq<EditInput>, now: nat): (r: EditOutcome)
    ensures r.EditNotFound? <==> forall j :: 0 <= j < |tasks| ==> IdOf(tasks[j]) != Str(id)
    ensures !r.EditNotFound? ==>
              var i := FindIndex(tasks, id).value;
              && |r.tasks| == |tasks|
              && (forall j :: 0 <= j < |tasks| && j != i ==> r.tasks[j] == tasks[j])
              && r.tasks[i] == Task(ApplyEdits(tasks[i].fields, inputs, now).0)
    ensures r.EditCrashed? <==> !r.EditNotFound? && exists j :: 0 <= j < |inputs| && inputs[j].TextInput? && inputs[j].name == DocField
  {
    match FindIndex(tasks, id)
    case None => EditNotFound
    case Some(i) =>
      var (fields, crashed) := ApplyEdits(tasks[i].fields, inputs, now);
      var updated := tasks[i := Task(fields)];
      if crashed then EditCrashed(updated) else Edited(updated)
  }

  /** An edit whose row has no input named `taskId` keeps the edited task's
      identifier, so it stays in the same table. */
  lemma EditKeepsIdentifier(tasks: seq<Task>, id: string, inputs: seq<EditInput>, now: nat)
    requires !SaveEdit(tasks, id, inputs, now).EditNotFound?
    requires forall j :: 0 <= j < |inputs| ==> !EditWrites(inputs[j], TaskIdKey)
    ensures IdOf(SaveEdit(tasks, id, inputs, now).tasks[FindIndex(tasks, id).value]) == Str(id)
  {
    var i := FindIndex(tasks, id).value;
    var edited := ApplyEdits(tasks[i].fields, inputs, now).0;
    assert Get(edited, TaskIdKey) == Get(tasks[i].fields, TaskIdKey);
  }
}
