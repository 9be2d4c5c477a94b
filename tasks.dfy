/**
  The records of the task service (`app/tasks/service.py`) and the pure parts
  of its operations: the record types, the partial task update, the first
  offer of a phone, and the invariant that every change keeps.

  Fresh `uuid4` identifiers are parameters that the caller promises are
  unused, and `datetime.now()` is a clock that moves forward at every record
  created; the service object itself is in `TaskService`.
 */
module Tasks {
  import opened Common

  type Phone = string

  datatype Category =
    | Movers | ComputerHelp | BeautyHealth | Handyman | HouseholdHelp
    | Laborers | ApplianceRepair | Construction | Tutoring | Plumbing
    | Furniture | Cleaning | Electrical | Legal | Other

  datatype TaskStatus = Open | InProgress | Completed | Cancelled

  datatype ResponseStatus = Pending | Accepted | Rejected

  /** A stored task. The fields that an update may overwrite with null are
      optional; `price` and `photos` may be null from the start. */
  datatype Task = Task(
    id: Id,
    category: Option<Category>,
    description: Option<string>,
    address: Option<string>,
    date: Option<string>,
    price: Option<real>,
    photos: Option<seq<string>>,
    status: TaskStatus,
    customerPhone: Phone,
    createdAt: nat,
    responsesCount: nat)

  /** The fields a customer supplies when posting a task. */
  datatype TaskCreate = TaskCreate(
    category: Category,
    description: string,
    address: string,
    date: string,
    price: Option<real>,
    photos: Option<seq<string>>)

  /** A field of a partial update: left out, or given (possibly as null). */
  datatype Patch<T> = Unset | Set(value: T)

  function Patched<T>(p: Patch<T>, current: T): T {
    match p
    case Unset => current
    case Set(v) => v
  }

  datatype TaskUpdate = TaskUpdate(
    category: Patch<Option<Category>>,
    description: Patch<Option<string>>,
    address: Patch<Option<string>>,
    date: Patch<Option<string>>,
    price: Patch<Option<real>>,
    photos: Patch<Option<seq<string>>>)

  const NoChanges := TaskUpdate(Unset, Unset, Unset, Unset, Unset, Unset)

  /** The fields a task listing may be narrowed by. A filter takes part only
      when it is truthy, so an empty phone string narrows nothing. */
  datatype TaskFilter = TaskFilter(phone: Option<Phone>, category: Option<Category>, status: Option<TaskStatus>) {
    predicate Accepts(t: Task) {
      && (phone.Some? && phone.value != "" ==> t.customerPhone == phone.value)
      && (category.Some? ==> t.category == Some(category.value))
      && (status.Some? ==> t.status == status.value)
    }
  }

  /** A performer's standing offer. */
  datatype Offer = Offer(
    id: Id,
    performerPhone: Phone,
    categories: seq<Category>,
    description: Option<string>,
    hourlyRate: Option<real>,
    createdAt: nat)

  datatype OfferWrite = Created(id: Id) | Updated

  /** A performer's response to a task. */
  datatype Response = Response(
    id: Id,
    taskId: Id,
    performerPhone: Phone,
    offerPrice: real,
    message: Option<string>,
    status: ResponseStatus,
    createdAt: nat)

  datatype ResponseCreate = ResponseCreate(offerPrice: real, message: Option<string>)

  /** A notification; `kind` is the type tag the service records. */
  datatype Notification = Notification(
    id: Id,
    phone: Phone,
    kind: string,
    createdAt: nat,
    read: bool)

  const NewResponseKind := "new_response"
  const ResponseAcceptedKind := "response_accepted"
  const ResponseRejectedKind := "response_rejected"

  datatype TaskError =
    | TaskNotFound
    | NotAuthorizedToDelete
    | ResponseNotFound
    | NotAuthorizedToUpdateResponse
    | NotificationNotFound
    | NotAuthorizedToRead

  function TaskTime(t: Task): int { t.createdAt }
  function ResponseTime(r: Response): int { r.createdAt }
  function NotificationTime(n: Notification): int { n.createdAt }

  // -----------------------------------------------------------------------
  // Pure parts of the operations

  /** The task with exactly the given fields overwritten. */
  function ApplyUpdate(t: Task, u: TaskUpdate): (r: Task)
    ensures r.id == t.id && r.status == t.status && r.customerPhone == t.customerPhone
    ensures r.createdAt == t.createdAt && r.responsesCount == t.responsesCount
    ensures r.category == if u.category.Set? then u.category.value else t.category
    ensures r.description == if u.description.Set? then u.description.value else t.description
    ensures r.address == if u.address.Set? then u.address.value else t.address
    ensures r.date == if u.date.Set? then u.date.value else t.date
    ensures r.price == if u.price.Set? then u.price.value else t.price
    ensures r.photos == if u.photos.Set? then u.photos.value else t.photos
  {
    t.(category := Patched(u.category, t.category),
       description := Patched(u.description, t.description),
       address := Patched(u.address, t.address),
       date := Patched(u.date, t.date),
       price := Patched(u.price, t.price),
       photos := Patched(u.photos, t.photos))
  }

  /** An empty update changes nothing, and applying an update twice is the
      same as applying it once. */
  lemma ApplyUpdateProperties(t: Task, u: TaskUpdate)
    ensures ApplyUpdate(t, NoChanges) == t
    ensures ApplyUpdate(ApplyUpdate(t, u), u) == ApplyUpdate(t, u)
  {
  }

  /** The first offer of `phone` in insertion order, if any. */
  function FirstOfferOf(offers: seq<Offer>, phone: Phone): (r: Option<Offer>)
    ensures r.None? <==> forall i :: 0 <= i < |offers| ==> offers[i].performerPhone != phone
    ensures r.Some? ==> r.value.performerPhone == phone
    ensures r.Some? ==>
      exists k :: (&& 0 <= k < |offers| && offers[k] == r.value
                   && forall j :: 0 <= j < k ==> offers[j].performerPhone != phone)
  {
    if offers == [] then None
    else if offers[0].performerPhone == phone then Some(offers[0])
    else
      var r := FirstOfferOf(offers[1..], phone);
      assert r.Some? ==>
        exists k :: (&& 1 <= k < |offers| && offers[k] == r.value
                     && forall j :: 0 <= j < k ==> offers[j].performerPhone != phone) by {
        if r.Some? {
          var k :| 0 <= k < |offers[1..]| && offers[1..][k] == r.value
            && forall j :: 0 <= j < k ==> offers[1..][j].performerPhone != phone;
          assert offers[k + 1] == r.value;
          forall j | 0 <= j < k + 1 ensures offers[j].performerPhone != phone {
            if j > 0 {
              assert offers[j] == offers[1..][j - 1];
            }
          }
        }
      }
      r
  }

  /** The first match is determined by its position: whatever sits at the
      first matching index is the answer. */
  lemma {:induction false} FirstOfferAt(offers: seq<Offer>, phone: Phone, k: nat)
    requires k < |offers| && offers[k].performerPhone == phone
    requires forall j :: 0 <= j < k ==> offers[j].performerPhone != phone
    ensures FirstOfferOf(offers, phone) == Some(offers[k])
  {
    if k > 0 {
      assert offers[1..][k - 1] == offers[k];
      forall j | 0 <= j < k - 1 ensures offers[1..][j].performerPhone != phone {
        assert offers[1..][j] == offers[j + 1];
      }
      FirstOfferAt(offers[1..], phone, k - 1);
    }
  }

  /** No phone has two offers. */
  ghost predicate OneOfferPerPhone(offers: map<Id, Offer>) {
    forall a, b ::
      (a in offers && b in offers && offers[a].performerPhone == offers[b].performerPhone) ==> a == b
  }

  /** An offer stored under a new id for a phone that has none becomes that
      phone's first offer, and no phone gets a second one. */
  lemma OfferAppended(d: Dict<Offer>, phone: Phone, id: Id, offer: Offer)
    requires d.Valid() && id !in d.rows && offer.performerPhone == phone
    requires FirstOfferOf(d.Values(), phone).None?
    ensures FirstOfferOf(d.Put(id, offer).Values(), phone) == Some(offer)
    ensures OneOfferPerPhone(d.rows) ==> OneOfferPerPhone(d.Put(id, offer).rows)
  {
    var before := d.Values();
    PutNewValues(d, id, offer);
    FirstOfferAt(d.Put(id, offer).Values(), phone, |before|);
    ValuesAreRows(d);
    forall a | a in d.rows ensures d.rows[a].performerPhone != phone {
      assert d.rows[a] in d.rows.Values;
    }
  }

  /** Overwriting the first offer of a phone, keeping its id and phone, makes
      the new record that phone's first offer, and no phone gets a second
      one. */
  lemma OfferReplaced(d: Dict<Offer>, phone: Phone, changed: Offer)
    requires d.Valid() && forall k :: k in d.rows ==> d.rows[k].id == k
    requires FirstOfferOf(d.Values(), phone).Some?
    requires changed.id == FirstOfferOf(d.Values(), phone).value.id && changed.performerPhone == phone
    ensures changed.id in d.rows
    ensures FirstOfferOf(d.Put(changed.id, changed).Values(), phone) == Some(changed)
    ensures OneOfferPerPhone(d.rows) ==> OneOfferPerPhone(d.Put(changed.id, changed).rows)
  {
    var before := d.Values();
    var offer := FirstOfferOf(before, phone).value;
    var k :| 0 <= k < |before| && before[k] == offer
      && forall j :: 0 <= j < k ==> before[j].performerPhone != phone;
    assert d.order[k] == offer.id;
    PutExistingValues(d, k, changed);
    var after := d.Put(offer.id, changed).Values();
    assert after == before[k := changed];
    FirstOfferAt(after, phone, k);
    assert d.rows[offer.id] == offer;
    OfferKeepsPhone(d.rows, offer.id, changed);
  }

  /** Rewriting an offer without changing its phone gives no phone a second
      offer. */
  lemma OfferKeepsPhone(offers: map<Id, Offer>, id: Id, changed: Offer)
    requires id in offers && offers[id].performerPhone == changed.performerPhone
    ensures OneOfferPerPhone(offers) ==> OneOfferPerPhone(offers[id := changed])
  {
    if OneOfferPerPhone(offers) {
      var after := offers[id := changed];
      forall a, b | a in after && b in after && after[a].performerPhone == after[b].performerPhone
        ensures a == b
      {
        assert offers[a].performerPhone == after[a].performerPhone;
        assert offers[b].performerPhone == after[b].performerPhone;
      }
    }
  }

  // -----------------------------------------------------------------------
  // Invariants of the tables

  // The four table invariants below, and their Put and Later lemmas, are one
  // definition written once per record type. They are kept per table because
  // a generic version taking the id and stamp accessors as function values
  // makes the methods that change several tables at once much costlier to
  // verify.

  /** Each record is stored under its own id and was created before `clock`. */
  ghost predicate TasksStamped(d: Dict<Task>, clock: nat) {
    && d.Valid()
    && forall k :: k in d.rows ==> d.rows[k].id == k && d.rows[k].createdAt < clock
  }

  ghost predicate OffersStamped(d: Dict<Offer>, clock: nat) {
    && d.Valid()
    && forall k :: k in d.rows ==> d.rows[k].id == k && d.rows[k].createdAt < clock
  }

  ghost predicate ResponsesStamped(d: Dict<Response>, clock: nat) {
    && d.Valid()
    && forall k :: k in d.rows ==> d.rows[k].id == k && d.rows[k].createdAt < clock
  }

  ghost predicate NotificationsStamped(d: Dict<Notification>, clock: nat) {
    && d.Valid()
    && forall k :: k in d.rows ==> d.rows[k].id == k && d.rows[k].createdAt < clock
  }

  // Storing a record under its own id, stamped before the (possibly later)
  // clock, keeps a table stamped; so does letting the clock move on.

  lemma TasksStampedPut(d: Dict<Task>, clock: nat, clock': nat, k: Id, v: Task)
    requires TasksStamped(d, clock) && clock <= clock' && v.id == k && v.createdAt < clock'
    ensures TasksStamped(d.Put(k, v), clock')
  {
  }

  lemma OffersStampedPut(d: Dict<Offer>, clock: nat, clock': nat, k: Id, v: Offer)
    requires OffersStamped(d, clock) && clock <= clock' && v.id == k && v.createdAt < clock'
    ensures OffersStamped(d.Put(k, v), clock')
  {
  }

  lemma ResponsesStampedPut(d: Dict<Response>, clock: nat, clock': nat, k: Id, v: Response)
    requires ResponsesStamped(d, clock) && clock <= clock' && v.id == k && v.createdAt < clock'
    ensures ResponsesStamped(d.Put(k, v), clock')
  {
  }

  lemma NotificationsStampedPut(d: Dict<Notification>, clock: nat, clock': nat, k: Id, v: Notification)
    requires NotificationsStamped(d, clock) && clock <= clock' && v.id == k && v.createdAt < clock'
    ensures NotificationsStamped(d.Put(k, v), clock')
  {
  }

  lemma TasksStampedLater(d: Dict<Task>, clock: nat, clock': nat)
    requires TasksStamped(d, clock) && clock <= clock'
    ensures TasksStamped(d, clock')
  {
  }

  lemma OffersStampedLater(d: Dict<Offer>, clock: nat, clock': nat)
    requires OffersStamped(d, clock) && clock <= clock'
    ensures OffersStamped(d, clock')
  {
  }

  lemma ResponsesStampedLater(d: Dict<Response>, clock: nat, clock': nat)
    requires ResponsesStamped(d, clock) && clock <= clock'
    ensures ResponsesStamped(d, clock')
  {
  }

  lemma NotificationsStampedLater(d: Dict<Notification>, clock: nat, clock': nat)
    requires NotificationsStamped(d, clock) && clock <= clock'
    ensures NotificationsStamped(d, clock')
  {
  }

  /** Live tasks and the tasks that responses name all got their ids from
      `issued`. */
  ghost predicate IssuedIds(tasks: map<Id, Task>, responses: map<Id, Response>, issued: set<Id>) {
    && tasks.Keys <= issued
    && forall k :: k in responses ==> responses[k].taskId in issued
  }

  /** The responses recorded against task `taskId`. */
  ghost function ResponsesTo(responses: map<Id, Response>, taskId: Id): set<Id> {
    set k | k in responses && responses[k].taskId == taskId
  }

  /** Every task's counter equals the number of responses recorded for it. */
  ghost predicate CountsResponses(tasks: map<Id, Task>, responses: map<Id, Response>) {
    forall k {:trigger ResponsesTo(responses, k)} ::
      k in tasks ==> tasks[k].responsesCount == |ResponsesTo(responses, k)|
  }

  /** The counters depend only on the task keys and counters and on which
      task each response names. */
  lemma CountsResponsesFrame(tasks: map<Id, Task>, responses: map<Id, Response>,
                             tasks': map<Id, Task>, responses': map<Id, Response>)
    requires CountsResponses(tasks, responses)
    requires tasks'.Keys == tasks.Keys
    requires forall k :: k in tasks ==> tasks'[k].responsesCount == tasks[k].responsesCount
    requires responses'.Keys == responses.Keys
    requires forall k :: k in responses ==> responses'[k].taskId == responses[k].taskId
    ensures CountsResponses(tasks', responses')
  {
    forall k | k in tasks'
      ensures tasks'[k].responsesCount == |ResponsesTo(responses', k)|
    {
      assert ResponsesTo(responses', k) == ResponsesTo(responses, k);
    }
  }

  /** A new response joins the set of its own task and no other. */
  lemma ResponsesToAdd(responses: map<Id, Response>, rid: Id, response: Response, k: Id)
    requires rid !in responses
    ensures ResponsesTo(responses[rid := response], k) ==
      if response.taskId == k then ResponsesTo(responses, k) + {rid} else ResponsesTo(responses, k)
  {
  }

  /** Recording one more response against a task and bumping that task's
      counter keeps every counter exact. */
  lemma CountsResponsesAdd(tasks: map<Id, Task>, responses: map<Id, Response>, rid: Id, response: Response)
    requires CountsResponses(tasks, responses)
    requires rid !in responses && response.taskId in tasks
    ensures var t := tasks[response.taskId];
      CountsResponses(tasks[response.taskId := t.(responsesCount := t.responsesCount + 1)],
                      responses[rid := response])
  {
    var taskId := response.taskId;
    var t := tasks[taskId];
    var tasks', responses' := tasks[taskId := t.(responsesCount := t.responsesCount + 1)], responses[rid := response];
    forall k | k in tasks'
      ensures tasks'[k].responsesCount == |ResponsesTo(responses', k)|
    {
      ResponsesToAdd(responses, rid, response, k);
    }
  }

  /** A task id never issued before has no responses yet. */
  lemma CountsResponsesNewTask(tasks: map<Id, Task>, responses: map<Id, Response>, issued: set<Id>,
                               id: Id, task: Task)
    requires CountsResponses(tasks, responses) && IssuedIds(tasks, responses, issued)
    requires id !in issued && task.responsesCount == 0
    ensures CountsResponses(tasks[id := task], responses)
  {
    assert ResponsesTo(responses, id) == {};
  }


  /** The invariant of the whole service state. */
  ghost predicate Consistent(tasks: Dict<Task>, offers: Dict<Offer>, responses: Dict<Response>,
                             notifications: Dict<Notification>, clock: nat, issued: set<Id>) {
    && TasksStamped(tasks, clock)
    && OffersStamped(offers, clock)
    && ResponsesStamped(responses, clock)
    && NotificationsStamped(notifications, clock)
    && IssuedIds(tasks.rows, responses.rows, issued)
    && CountsResponses(tasks.rows, responses.rows)
  }

  // -----------------------------------------------------------------------
  // Every change the service makes keeps the state consistent

  /** A new task under a never-issued id, stamped now, with no responses. */
  lemma TaskCreated(tasks: Dict<Task>, offers: Dict<Offer>, responses: Dict<Response>,
                    notifications: Dict<Notification>, clock: nat, issued: set<Id>, id: Id, task: Task)
    requires Consistent(tasks, offers, responses, notifications, clock, issued)
    requires id !in issued && task.id == id && task.createdAt == clock && task.responsesCount == 0
    ensures Consistent(tasks.Put(id, task), offers, responses, notifications, clock + 1, issued + {id})
  {
    CountsResponsesNewTask(tasks.rows, responses.rows, issued, id, task);
    TasksStampedPut(tasks, clock, clock + 1, id, task);
    OffersStampedLater(offers, clock, clock + 1);
    ResponsesStampedLater(responses, clock, clock + 1);
    NotificationsStampedLater(notifications, clock, clock + 1);
  }

  /** A stored task rewritten in place, keeping its id, stamp and counter. */
  lemma TaskChanged(tasks: Dict<Task>, offers: Dict<Offer>, responses: Dict<Response>,
                    notifications: Dict<Notification>, clock: nat, issued: set<Id>, id: Id, task: Task)
    requires Consistent(tasks, offers, responses, notifications, clock, issued)
    requires id in tasks.rows && task.id == id
    requires task.createdAt == tasks.rows[id].createdAt && task.responsesCount == tasks.rows[id].responsesCount
    ensures Consistent(tasks.Put(id, task), offers, responses, notifications, clock, issued)
  {
    CountsResponsesFrame(tasks.rows, responses.rows, tasks.Put(id, task).rows, responses.rows);
    TasksStampedPut(tasks, clock, clock, id, task);
  }

  /** A task deleted (its responses stay behind). */
  lemma TaskRemoved(tasks: Dict<Task>, offers: Dict<Offer>, responses: Dict<Response>,
                    notifications: Dict<Notification>, clock: nat, issued: set<Id>, id: Id)
    requires Consistent(tasks, offers, responses, notifications, clock, issued)
    ensures Consistent(tasks.Remove(id), offers, responses, notifications, clock, issued)
  {
  }

  /** A new offer stamped now. */
  lemma OfferCreated(tasks: Dict<Task>, offers: Dict<Offer>, responses: Dict<Response>,
                     notifications: Dict<Notification>, clock: nat, issued: set<Id>, id: Id, offer: Offer)
    requires Consistent(tasks, offers, responses, notifications, clock, issued)
    requires offer.id == id && offer.createdAt == clock
    ensures Consistent(tasks, offers.Put(id, offer), responses, notifications, clock + 1, issued)
  {
    OffersStampedPut(offers, clock, clock + 1, id, offer);
    TasksStampedLater(tasks, clock, clock + 1);
    ResponsesStampedLater(responses, clock, clock + 1);
    NotificationsStampedLater(notifications, clock, clock + 1);
  }

  /** A stored offer rewritten in place, keeping its id and stamp. */
  lemma OfferChanged(tasks: Dict<Task>, offers: Dict<Offer>, responses: Dict<Response>,
                     notifications: Dict<Notification>, clock: nat, issued: set<Id>, id: Id, offer: Offer)
    requires Consistent(tasks, offers, responses, notifications, clock, issued)
    requires id in offers.rows && offer.id == id && offer.createdAt == offers.rows[id].createdAt
    ensures Consistent(tasks, offers.Put(id, offer), responses, notifications, clock, issued)
  {
    OffersStampedPut(offers, clock, clock, id, offer);
  }

  /** A new response stamped now, and its task's counter bumped. */
  lemma ResponseRecorded(tasks: Dict<Task>, offers: Dict<Offer>, responses: Dict<Response>,
                         notifications: Dict<Notification>, clock: nat, issued: set<Id>,
                         rid: Id, response: Response, taskId: Id, counted: Task)
    requires Consistent(tasks, offers, responses, notifications, clock, issued)
    requires rid !in responses.rows && response.id == rid && response.createdAt == clock
    requires taskId in tasks.rows && response.taskId == taskId
    requires counted == tasks.rows[taskId].(responsesCount := tasks.rows[taskId].responsesCount + 1)
    ensures Consistent(tasks.Put(taskId, counted), offers, responses.Put(rid, response), notifications,
                       clock + 1, issued)
  {
    CountsResponsesAdd(tasks.rows, responses.rows, rid, response);
    TasksStampedPut(tasks, clock, clock + 1, taskId, counted);
    ResponsesStampedPut(responses, clock, clock + 1, rid, response);
    OffersStampedLater(offers, clock, clock + 1);
    NotificationsStampedLater(notifications, clock, clock + 1);
  }

  /** A stored response rewritten in place, keeping its id, task and stamp. */
  lemma ResponseChanged(tasks: Dict<Task>, offers: Dict<Offer>, responses: Dict<Response>,
                        notifications: Dict<Notification>, clock: nat, issued: set<Id>, rid: Id, response: Response)
    requires Consistent(tasks, offers, responses, notifications, clock, issued)
    requires rid in responses.rows && response.id == rid
    requires response.taskId == responses.rows[rid].taskId && response.createdAt == responses.rows[rid].createdAt
    ensures Consistent(tasks, offers, responses.Put(rid, response), notifications, clock, issued)
  {
    CountsResponsesFrame(tasks.rows, responses.rows, tasks.rows, responses.Put(rid, response).rows);
    ResponsesStampedPut(responses, clock, clock, rid, response);
  }

  /** A new notification stamped now. */
  lemma NotificationCreated(tasks: Dict<Task>, offers: Dict<Offer>, responses: Dict<Response>,
                            notifications: Dict<Notification>, clock: nat, issued: set<Id>,
                            nid: Id, notification: Notification)
    requires Consistent(tasks, offers, responses, notifications, clock, issued)
    requires notification.id == nid && notification.createdAt == clock
    ensures Consistent(tasks, offers, responses, notifications.Put(nid, notification), clock + 1, issued)
  {
    NotificationsStampedPut(notifications, clock, clock + 1, nid, notification);
    TasksStampedLater(tasks, clock, clock + 1);
    OffersStampedLater(offers, clock, clock + 1);
    ResponsesStampedLater(responses, clock, clock + 1);
  }

  /** A stored notification rewritten in place, keeping its id and stamp. */
  lemma NotificationChanged(tasks: Dict<Task>, offers: Dict<Offer>, responses: Dict<Response>,
                            notifications: Dict<Notification>, clock: nat, issued: set<Id>,
                            nid: Id, notification: Notification)
    requires Consistent(tasks, offers, responses, notifications, clock, issued)
    requires nid in notifications.rows && notification.id == nid
    requires notification.createdAt == notifications.rows[nid].createdAt
    ensures Consistent(tasks, offers, responses, notifications.Put(nid, notification), clock, issued)
  {
    NotificationsStampedPut(notifications, clock, clock, nid, notification);
  }
}
