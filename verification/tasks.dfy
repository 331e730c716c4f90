/** The task record as the browser client holds it: a plain JavaScript object,
    that is, a map from property names to JSON-like values. Every field the
    forms produce lives in that map, `taskId` included, because nothing in the
    client stops a form field or an edit from writing `taskId` itself. */
module Tasks {
  import opened Wrappers

  /** The JavaScript values a task property can hold after a JSON round trip
      through storage. `Composite` is any object or array (a `File` object
      stored under an ordinary form key becomes `{}`). Numbers are integers
      here. */
  datatype JsValue =
    | Undefined
    | Null
    | Bool(b: bool)
    | Num(n: int)
    | Str(s: string)
    | Composite

  /** JavaScript truthiness, as `if (v)` and `v && ...` use it. */
  predicate Truthy(v: JsValue) {
    match v
    case Undefined => false
    case Null => false
    case Bool(b) => b
    case Num(n) => n != 0
    case Str(s) => s != ""
    case Composite => true
  }

  type Fields = map<string, JsValue>

  datatype Task = Task(fields: Fields)

  /** `obj[key]`: a missing property reads as `undefined`. */
  function Get(fields: Fields, key: string): JsValue {
    if key in fields then fields[key] else Undefined
  }

  const TaskIdKey := "taskId"
  const DocNameKey := "taskDocumentationName"
  const DocTypeKey := "taskDocumentationType"
  const DocKeyKey := "taskDocumentationKey"

  /** `task.taskId` */
  function IdOf(t: Task): JsValue {
    Get(t.fields, TaskIdKey)
  }

  /** `task.taskDocumentationKey` */
  function DocKeyOf(t: Task): JsValue {
    Get(t.fields, DocKeyKey)
  }

  /** `tasks.findIndex(task => task.taskId === id)`, with `None` for `-1`:
      the position of the FIRST task whose identifier is the string `id`. */
  function FindIndex(tasks: seq<Task>, id: string): (r: Option<nat>)
    ensures r.None? <==> forall j :: 0 <= j < |tasks| ==> IdOf(tasks[j]) != Str(id)
    ensures r.Some? ==> r.value < |tasks| && IdOf(tasks[r.value]) == Str(id)
    ensures r.Some? ==> forall j :: 0 <= j < r.value ==> IdOf(tasks[j]) != Str(id)
  {
    if |tasks| == 0 then None
    else if IdOf(tasks[0]) == Str(id) then Some(0)
    else
      match FindIndex(tasks[1..], id)
      case None => None
      case Some(i) => Some(i + 1)
  }
}
