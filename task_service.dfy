/**
  The task service itself (`app/tasks/service.py`): the four module-level
  dictionaries become the fields of one object, and each service function a
  method that keeps the invariant `Tasks.Consistent` and states the new
  contents of every field. A `ValueError` the service raises is a `Fail` or
  `Failure` result that leaves the whole state as it was.
 */
module TaskService {
  import opened Common
  import opened Tasks

  class TaskService {
    var tasks: Dict<Task>
    var offers: Dict<Offer>
    var responses: Dict<Response>
    var notifications: Dict<Notification>
    /** Stands for `datetime.now()`: strictly later at every record created. */
    var clock: nat
    /** Every task id handed out so far; `uuid4` never repeats one. */
    ghost var issuedTaskIds: set<Id>

    /** Well-formed tables, stamped records and exact response counters. */
    ghost predicate Valid()
      reads this
    {
      Consistent(tasks, offers, responses, notifications, clock, issuedTaskIds)
    }

    /** Whether `phone` owns the task that response `rid` answers. */
    ghost predicate OwnsTaskOf(rid: Id, phone: Phone)
      reads this
      requires rid in responses.rows
    {
      var taskId := responses.rows[rid].taskId;
      taskId in tasks.rows && tasks.rows[taskId].customerPhone == phone
    }

    constructor ()
      ensures Valid()
      ensures tasks.rows == map[] && offers.rows == map[] && responses.rows == map[]
      ensures notifications.rows == map[] && clock == 0
      ensures issuedTaskIds == {}
    {
      tasks, offers, responses, notifications := Empty(), Empty(), Empty(), Empty();
      clock := 0;
      issuedTaskIds := {};
    }

    // ---------------------------------------------------------------------
    // Tasks

    method CreateTask(id: Id, data: TaskCreate, customerPhone: Phone) returns (taskId: Id)
      requires Valid() && id !in issuedTaskIds
      modifies this
      ensures Valid()
      ensures taskId == id
      ensures tasks == old(tasks).Put(id, Task(id, Some(data.category), Some(data.description),
        Some(data.address), Some(data.date), data.price, data.photos, Open, customerPhone, old(clock), 0))
      ensures forall k :: k in old(tasks.rows) ==> old(tasks.rows)[k].createdAt < tasks.rows[id].createdAt
      ensures offers == old(offers) && responses == old(responses) && notifications == old(notifications)
      ensures clock == old(clock) + 1 && issuedTaskIds == old(issuedTaskIds) + {id}
    {
      var task := Task(id, Some(data.category), Some(data.description), Some(data.address),
        Some(data.date), data.price, data.photos, Open, customerPhone, clock, 0);
      TaskCreated(tasks, offers, responses, notifications, clock, issuedTaskIds, id, task);
      tasks := tasks.Put(id, task);
      issuedTaskIds := issuedTaskIds + {id};
      clock := clock + 1;
      taskId := id;
    }

    method GetTasks(filter: TaskFilter) returns (r: seq<Task>)
      requires Valid()
      ensures multiset(r) == multiset(Select(tasks.Values(), filter.Accepts))
      ensures forall t :: t in r <==> t in tasks.rows.Values && filter.Accepts(t)
      ensures NoDup(r)
      ensures Descending(r, TaskTime)
    {
      var found := CollectValues(tasks.Values(), filter.Accepts);
      r := SortDesc(found, TaskTime);
      SelectedRecords(tasks, filter.Accepts, (t: Task) => t.id, r);
    }

    function GetTask(id: Id): (r: Option<Task>)
      reads this
      requires Valid()
      ensures r.Some? <==> id in tasks.rows
      ensures r.Some? ==> r.value.id == id && r.value in tasks.rows.Values
    {
      if id in tasks.rows then Some(tasks.rows[id]) else None
    }

    method UpdateTask(id: Id, update: TaskUpdate) returns (r: Outcome<TaskError>)
      requires Valid()
      modifies this
      ensures Valid()
      ensures id !in old(tasks.rows) ==> r == Fail(TaskNotFound) && unchanged(this)
      ensures id in old(tasks.rows) ==>
        && r == Pass
        && tasks == old(tasks).Put(id, ApplyUpdate(old(tasks.rows[id]), update))
        && offers == old(offers) && responses == old(responses) && notifications == old(notifications)
        && clock == old(clock) && issuedTaskIds == old(issuedTaskIds)
    {
      if id !in tasks.rows {
        return Fail(TaskNotFound);
      }
      var updated := ApplyUpdate(tasks.rows[id], update);
      TaskChanged(tasks, offers, responses, notifications, clock, issuedTaskIds, id, updated);
      tasks := tasks.Put(id, updated);
      r := Pass;
    }

    method DeleteTask(id: Id, customerPhone: Phone) returns (r: Outcome<TaskError>)
      requires Valid()
      modifies this
      ensures Valid()
      ensures id !in old(tasks.rows) ==> r == Fail(TaskNotFound) && unchanged(this)
      ensures id in old(tasks.rows) && old(tasks.rows[id].customerPhone) != customerPhone ==>
        r == Fail(NotAuthorizedToDelete) && unchanged(this)
      ensures id in old(tasks.rows) && old(tasks.rows[id].customerPhone) == customerPhone ==>
        && r == Pass
        && tasks == old(tasks).Remove(id)
        && offers == old(offers) && responses == old(responses) && notifications == old(notifications)
        && clock == old(clock) && issuedTaskIds == old(issuedTaskIds)
    {
      if id !in tasks.rows {
        return Fail(TaskNotFound);
      }
      if tasks.rows[id].customerPhone != customerPhone {
        return Fail(NotAuthorizedToDelete);
      }
      TaskRemoved(tasks, offers, responses, notifications, clock, issuedTaskIds, id);
      tasks := tasks.Remove(id);
      r := Pass;
    }

    // ---------------------------------------------------------------------
    // Service offers

    method CreateServiceOffer(id: Id, phone: Phone, categories: seq<Category>,
                              description: Option<string>, hourlyRate: Option<real>)
      returns (offerId: Id)
      requires Valid() && id !in offers.rows
      modifies this
      ensures Valid()
      ensures offerId == id
      ensures offers == old(offers).Put(id, Offer(id, phone, categories, description, hourlyRate, old(clock)))
      ensures tasks == old(tasks) && responses == old(responses) && notifications == old(notifications)
      ensures clock == old(clock) + 1 && issuedTaskIds == old(issuedTaskIds)
    {
      var offer := Offer(id, phone, categories, description, hourlyRate, clock);
      OfferCreated(tasks, offers, responses, notifications, clock, issuedTaskIds, id, offer);
      offers := offers.Put(id, offer);
      clock := clock + 1;
      offerId := id;
    }

    method GetServiceOffer(phone: Phone) returns (r: Option<Offer>)
      requires Valid()
      ensures r == FirstOfferOf(offers.Values(), phone)
    {
      var i := 0;
      while i < |offers.order|
        invariant i <= |offers.order|
        invariant forall j :: 0 <= j < i ==> offers.Values()[j].performerPhone != phone
      {
        var offer := offers.rows[offers.order[i]];
        if offer.performerPhone == phone {
          FirstOfferAt(offers.Values(), phone, i);
          return Some(offer);
        }
        i := i + 1;
      }
      r := None;
    }

    /** Creates the phone's offer, or overwrites the categories, description
        and rate of the offer that `GetServiceOffer` finds. */
    method UpdateServiceOffer(id: Id, phone: Phone, categories: seq<Category>,
                              description: Option<string>, hourlyRate: Option<real>)
      returns (r: OfferWrite)
      requires Valid() && id !in offers.rows
      modifies this
      ensures Valid()
      ensures var found := FirstOfferOf(old(offers.Values()), phone);
        if found.None? then
          && r == Created(id)
          && offers == old(offers).Put(id, Offer(id, phone, categories, description, hourlyRate, old(clock)))
          && clock == old(clock) + 1
        else
          && r == Updated
          && offers == old(offers).Put(found.value.id,
               found.value.(categories := categories, description := description, hourlyRate := hourlyRate))
          && clock == old(clock)
      ensures var now := FirstOfferOf(offers.Values(), phone);
        && now.Some?
        && now.value.categories == categories
        && now.value.description == description
        && now.value.hourlyRate == hourlyRate
      ensures old(OneOfferPerPhone(offers.rows)) ==> OneOfferPerPhone(offers.rows)
      ensures tasks == old(tasks) && responses == old(responses) && notifications == old(notifications)
      ensures issuedTaskIds == old(issuedTaskIds)
    {
      var found := GetServiceOffer(phone);
      if found.None? {
        OfferAppended(offers, phone, id, Offer(id, phone, categories, description, hourlyRate, clock));
        var offerId := CreateServiceOffer(id, phone, categories, description, hourlyRate);
        return Created(offerId);
      }
      var changed := found.value.(categories := categories, description := description, hourlyRate := hourlyRate);
      OfferReplaced(offers, phone, changed);
      OfferChanged(tasks, offers, responses, notifications, clock, issuedTaskIds, changed.id, changed);
      offers := offers.Put(changed.id, changed);
      r := Updated;
    }

    // ---------------------------------------------------------------------
    // Responses

    method CreateProjectResponse(rid: Id, nid: Id, taskId: Id, performerPhone: Phone, data: ResponseCreate)
      returns (r: Result<Id, TaskError>)
      requires Valid() && rid !in responses.rows && nid !in notifications.rows
      modifies this
      ensures Valid()
      ensures taskId !in old(tasks.rows) ==> r == Failure(TaskNotFound) && unchanged(this)
      ensures taskId in old(tasks.rows) ==>
        var t := old(tasks.rows[taskId]);
        && r == Success(rid)
        && responses == old(responses).Put(rid, Response(rid, taskId, performerPhone,
             data.offerPrice, data.message, Pending, old(clock)))
        && tasks == old(tasks).Put(taskId, t.(responsesCount := t.responsesCount + 1))
        && notifications == old(notifications).Put(nid,
             Notification(nid, t.customerPhone, NewResponseKind, old(clock) + 1, false))
        && offers == old(offers) && clock == old(clock) + 2 && issuedTaskIds == old(issuedTaskIds)
    {
      if taskId !in tasks.rows {
        return Failure(TaskNotFound);
      }
      var task := tasks.rows[taskId];
      RecordResponse(Response(rid, taskId, performerPhone, data.offerPrice, data.message, Pending, clock));
      var _ := CreateNotification(nid, task.customerPhone, NewResponseKind);
      r := Success(rid);
    }

    /** Stores a new response and counts it against its task. */
    method RecordResponse(response: Response)
      requires Valid() && response.id !in responses.rows && response.taskId in tasks.rows
      requires response.createdAt == clock
      modifies this
      ensures Valid()
      ensures var t := old(tasks.rows[response.taskId]);
        && responses == old(responses).Put(response.id, response)
        && tasks == old(tasks).Put(response.taskId, t.(responsesCount := t.responsesCount + 1))
      ensures offers == old(offers) && notifications == old(notifications)
      ensures clock == old(clock) + 1 && issuedTaskIds == old(issuedTaskIds)
    {
      var task := tasks.rows[response.taskId];
      var counted := task.(responsesCount := task.responsesCount + 1);
      ResponseRecorded(tasks, offers, responses, notifications, clock, issuedTaskIds,
        response.id, response, response.taskId, counted);
      responses, tasks, clock := responses.Put(response.id, response), tasks.Put(response.taskId, counted), clock + 1;
    }

    method GetTaskResponses(taskId: Id) returns (r: seq<Response>)
      requires Valid()
      ensures multiset(r) == multiset(Select(responses.Values(), (x: Response) => x.taskId == taskId))
      ensures forall x :: x in r <==> x in responses.rows.Values && x.taskId == taskId
      ensures NoDup(r)
      ensures Descending(r, ResponseTime)
    {
      var keep := (x: Response) => x.taskId == taskId;
      var found := CollectValues(responses.Values(), keep);
      r := SortDesc(found, ResponseTime);
      SelectedRecords(responses, keep, (x: Response) => x.id, r);
    }

    method UpdateResponseStatus(rid: Id, status: ResponseStatus, customerPhone: Phone, nid: Id)
      returns (r: Outcome<TaskError>)
      requires Valid() && nid !in notifications.rows
      modifies this
      ensures Valid()
      ensures rid !in old(responses.rows) ==> r == Fail(ResponseNotFound) && unchanged(this)
      ensures rid in old(responses.rows) && !old(OwnsTaskOf(rid, customerPhone)) ==>
        r == Fail(NotAuthorizedToUpdateResponse) && unchanged(this)
      ensures rid in old(responses.rows) && old(OwnsTaskOf(rid, customerPhone)) ==>
        var response := old(responses.rows[rid]);
        var task := old(tasks.rows[response.taskId]);
        && r == Pass
        && responses == old(responses).Put(rid, response.(status := status))
        && tasks == (if status == Accepted
                     then old(tasks).Put(response.taskId, task.(status := InProgress))
                     else old(tasks))
        && notifications == (if status == Accepted then
                               old(notifications).Put(nid, Notification(nid, response.performerPhone,
                                 ResponseAcceptedKind, old(clock), false))
                             else if status == Rejected then
                               old(notifications).Put(nid, Notification(nid, response.performerPhone,
                                 ResponseRejectedKind, old(clock), false))
                             else old(notifications))
        && clock == (if status == Pending then old(clock) else old(clock) + 1)
        && offers == old(offers) && issuedTaskIds == old(issuedTaskIds)
    {
      if rid !in responses.rows {
        return Fail(ResponseNotFound);
      }
      var response := responses.rows[rid];
      var task := GetTask(response.taskId);
      if task.None? || task.value.customerPhone != customerPhone {
        return Fail(NotAuthorizedToUpdateResponse);
      }
      var answered := response.(status := status);
      ResponseChanged(tasks, offers, responses, notifications, clock, issuedTaskIds, rid, answered);
      responses := responses.Put(rid, answered);
      if status == Accepted {
        var started := task.value.(status := InProgress);
        TaskChanged(tasks, offers, responses, notifications, clock, issuedTaskIds, response.taskId, started);
        tasks := tasks.Put(response.taskId, started);
        var _ := CreateNotification(nid, response.performerPhone, ResponseAcceptedKind);
      } else if status == Rejected {
        var _ := CreateNotification(nid, response.performerPhone, ResponseRejectedKind);
      }
      r := Pass;
    }

    // ---------------------------------------------------------------------
    // Notifications

    method CreateNotification(nid: Id, phone: Phone, kind: string) returns (notificationId: Id)
      requires Valid() && nid !in notifications.rows
      modifies this
      ensures Valid()
      ensures notificationId == nid
      ensures notifications == old(notifications).Put(nid, Notification(nid, phone, kind, old(clock), false))
      ensures tasks == old(tasks) && offers == old(offers) && responses == old(responses)
      ensures clock == old(clock) + 1 && issuedTaskIds == old(issuedTaskIds)
    {
      var notification := Notification(nid, phone, kind, clock, false);
      NotificationCreated(tasks, offers, responses, notifications, clock, issuedTaskIds, nid, notification);
      notifications := notifications.Put(nid, notification);
      clock := clock + 1;
      notificationId := nid;
    }

    method GetNotifications(phone: Phone) returns (r: seq<Notification>)
      requires Valid()
      ensures multiset(r) == multiset(Select(notifications.Values(), (n: Notification) => n.phone == phone))
      ensures forall n :: n in r <==> n in notifications.rows.Values && n.phone == phone
      ensures NoDup(r)
      ensures Descending(r, NotificationTime)
    {
      var keep := (n: Notification) => n.phone == phone;
      var found := CollectValues(notifications.Values(), keep);
      r := SortDesc(found, NotificationTime);
      SelectedRecords(notifications, keep, (n: Notification) => n.id, r);
    }

    method MarkNotificationRead(nid: Id, phone: Phone) returns (r: Outcome<TaskError>)
      requires Valid()
      modifies this
      ensures Valid()
      ensures nid !in old(notifications.rows) ==> r == Fail(NotificationNotFound) && unchanged(this)
      ensures nid in old(notifications.rows) && old(notifications.rows[nid].phone) != phone ==>
        r == Fail(NotAuthorizedToRead) && unchanged(this)
      ensures nid in old(notifications.rows) && old(notifications.rows[nid].phone) == phone ==>
        && r == Pass
        && notifications == old(notifications).Put(nid, old(notifications.rows[nid]).(read := true))
        && tasks == old(tasks) && offers == old(offers) && responses == old(responses)
        && clock == old(clock) && issuedTaskIds == old(issuedTaskIds)
      ensures nid in old(notifications.rows) && old(notifications.rows[nid].read) && r == Pass ==>
        unchanged(this)
    {
      if nid !in notifications.rows {
        return Fail(NotificationNotFound);
      }
      var notification := notifications.rows[nid];
      if notification.phone != phone {
        return Fail(NotAuthorizedToRead);
      }
      NotificationChanged(tasks, offers, responses, notifications, clock, issuedTaskIds, nid,
        notification.(read := true));
      notifications := notifications.Put(nid, notification.(read := true));
      if notification.read {
        assert notifications.rows == old(notifications.rows);
      }
      r := Pass;
    }
  }
}
