/** Notifications (notificationController.js): personal notifications carry a
    recipient and an `is_read` flag; global ones have no recipient and record
    the users who read them in `read_by`. */
module Notifications {
  import opened Common
  import opened Text
  import opened JsArray

  datatype Notification = Notification(
    id: Id,
    recipient: Option<Id>,
    sender: Id,
    titleEn: string,
    titleAr: string,
    messageEn: string,
    messageAr: string,
    kind: string,
    isRead: bool,
    readBy: seq<Id>,
    createdAt: int)

  /** `type`'s enum. */
  const Kinds: set<string> := {"info", "success", "warning", "error"}

  /** The `recipient` of a send request: the literal "all", a user id, or absent. */
  datatype RecipientArg = All | To(user: Id) | NoRecipient

  /** `getMyNotifications`' query: the user's own notifications and the global ones. */
  predicate Visible(n: Notification, userId: Id) {
    n.recipient == Some(userId) || n.recipient.None?
  }

  /** Whether the user has read the notification: the stored flag of a personal
      notification, membership of `read_by` for a global one. */
  predicate ReadBy(n: Notification, userId: Id) {
    if n.recipient.Some? then n.isRead else userId in n.readBy
  }

  /** One element of `getMyNotifications`' answer. */
  datatype Row = Row(id: Id, titleEn: string, titleAr: string, messageEn: string, messageAr: string,
                     kind: string, createdAt: int, isRead: bool, isGlobal: bool)

  function Project(n: Notification, userId: Id): (r: Row)
    ensures r.id == n.id && r.createdAt == n.createdAt && r.kind == n.kind
    ensures r.isGlobal <==> n.recipient.None?
    ensures r.isRead <==> ReadBy(n, userId)
  {
    Row(n.id, n.titleEn, n.titleAr, n.messageEn, n.messageAr, n.kind, n.createdAt,
        if n.recipient.Some? then n.isRead else userId in n.readBy,
        n.recipient.None?)
  }

  function CreatedAt(n: Notification): int {
    n.createdAt
  }

  function ProjectAll(ns: seq<Notification>, userId: Id): (r: seq<Row>)
    ensures |r| == |ns|
    ensures forall i :: 0 <= i < |ns| ==> r[i] == Project(ns[i], userId)
  {
    if ns == [] then [] else [Project(ns[0], userId)] + ProjectAll(ns[1..], userId)
  }

  const ListLimit := 50

  /** `getMyNotifications`: the visible notifications, newest first, the first
      50, each projected for the user. */
  function MyNotifications(ns: seq<Notification>, userId: Id): (r: seq<Row>)
    ensures |r| <= ListLimit
    ensures forall i, j :: 0 <= i < j < |r| ==> r[i].createdAt >= r[j].createdAt
  {
    ProjectAll(Top(Filter(ns, (n: Notification) => Visible(n, userId)), CreatedAt, ListLimit), userId)
  }

  /** The list holds min(50, visible) rows, newest first, each the projection of
      a notification the user may see; a visible notification is missing only
      when more than 50 are visible, and then it is no newer than any shown. */
  lemma MyNotificationsContents(ns: seq<Notification>, userId: Id, n: Notification)
    requires n in ns && Visible(n, userId)
    ensures var r := MyNotifications(ns, userId);
      var vis := Filter(ns, (m: Notification) => Visible(m, userId));
      |r| == (if |vis| < ListLimit then |vis| else ListLimit)
      && (forall i, j :: 0 <= i < j < |r| ==> r[i].createdAt >= r[j].createdAt)
      && (forall i :: 0 <= i < |r| ==> exists m :: m in ns && Visible(m, userId) && r[i] == Project(m, userId))
      && (Project(n, userId) !in r ==> |vis| > ListLimit && forall i :: 0 <= i < |r| ==> r[i].createdAt >= n.createdAt)
  {
    var vis := Filter(ns, (m: Notification) => Visible(m, userId));
    var top := Top(vis, CreatedAt, ListLimit);
    var r := ProjectAll(top, userId);
    forall i | 0 <= i < |r| ensures exists m :: m in ns && Visible(m, userId) && r[i] == Project(m, userId) {
      assert top[i] in top;
    }
    assert n in vis;
    if Project(n, userId) !in r {
      TopNewest(vis, CreatedAt, ListLimit, n);
      forall i | 0 <= i < |r| ensures r[i].createdAt >= n.createdAt {
        assert top[i] in top;
      }
    }
  }

  /** `sendNotification`: "all" (or no recipient) stores a global notification;
      the type defaults to info; a title or message that is missing or empty
      (titles once trimmed), or a type outside the enum, fails validation (400).
      The new notification is unread by everybody. */
  function NewNotification(id: Id, recipient: RecipientArg, sender: Id, titleEn: string, titleAr: string,
                           messageEn: string, messageAr: string, kind: Option<string>, now: int): (r: Outcome<Notification>)
    ensures r.Err? <==> (Trim(titleEn) == [] || Trim(titleAr) == [] || messageEn == [] || messageAr == []
                         || (kind.Some? && kind.value != [] && kind.value !in Kinds))
    ensures r.Err? ==> r.code == BadRequest
    ensures r.Ok? ==> (r.value.recipient.None? <==> !recipient.To?)
    ensures r.Ok? && recipient.To? ==> r.value.recipient == Some(recipient.user)
    ensures r.Ok? ==> r.value.kind in Kinds && (kind.None? || kind.value == [] ==> r.value.kind == "info")
    ensures r.Ok? ==> forall u :: !ReadBy(r.value, u)
    ensures r.Ok? ==> var n := r.value;
      n.id == id && n.sender == sender && n.createdAt == now
      && n.titleEn == Trim(titleEn) && n.titleAr == Trim(titleAr)
      && n.messageEn == messageEn && n.messageAr == messageAr
      && (kind.Some? && kind.value != [] ==> n.kind == kind.value)
      && !n.isRead && n.readBy == []
  {
    var k := if kind.Some? && kind.value != [] then kind.value else "info";
    if Trim(titleEn) == [] || Trim(titleAr) == [] || messageEn == [] || messageAr == [] || k !in Kinds then
      Err(BadRequest)
    else
      Ok(Notification(id, if recipient.To? then Some(recipient.user) else None, sender,
                      Trim(titleEn), Trim(titleAr), messageEn, messageAr, k, false, [], now))
  }

  /** `markAsRead` on one notification: a personal notification answers 403 to
      anyone but its recipient; otherwise the caller now reads it as read, and no
      other user's read state changes. `read_by` gains the caller only if absent. */
  function MarkRead(n: Notification, userId: Id): (r: Outcome<Notification>)
    ensures r.Err? <==> (n.recipient.Some? && n.recipient.value != userId)
    ensures r.Err? ==> r.code == Forbidden
    ensures r.Ok? ==> (ReadBy(r.value, userId)
      && r.value.(isRead := n.isRead, readBy := n.readBy) == n
      && (n.recipient.None? ==> forall u :: u != userId ==> (ReadBy(r.value, u) <==> ReadBy(n, u)))
      && (n.recipient.Some? || userId in n.readBy ==> r.value.readBy == n.readBy)
      && (n.recipient.None? && userId !in n.readBy ==> r.value.readBy == n.readBy + [userId]))
  {
    if n.recipient.Some? then
      if n.recipient.value != userId then Err(Forbidden)
      else Ok(n.(isRead := true))
    else if userId in n.readBy then Ok(n)
    else Ok(n.(readBy := n.readBy + [userId]))
  }

  /** Marking twice is marking once, and `read_by` never lists a user twice if
      it did not before. */
  lemma MarkReadIdempotent(n: Notification, userId: Id)
    requires MarkRead(n, userId).Ok?
    ensures MarkRead(MarkRead(n, userId).value, userId) == MarkRead(n, userId)
    ensures (forall i, j :: 0 <= i < j < |n.readBy| ==> n.readBy[i] != n.readBy[j]) ==>
      var rb := MarkRead(n, userId).value.readBy;
      forall i, j :: 0 <= i < j < |rb| ==> rb[i] != rb[j]
  {
    var rb := MarkRead(n, userId).value.readBy;
    if n.recipient.None? && userId !in n.readBy {
      assert rb == n.readBy + [userId];
      assert rb[|n.readBy|] == userId;
    }
  }

  /** `deleteNotification`'s authorisation: a personal notification only by its
      recipient or an admin, a global one by anybody. */
  predicate MayDelete(n: Notification, caller: User) {
    n.recipient.None? || n.recipient.value == caller.id || IsAdmin(caller.role)
  }

  /** The position `findById` finds. */
  function IndexOf(ns: seq<Notification>, id: Id): (r: Option<nat>)
    ensures r.Some? ==> (r.value < |ns| && ns[r.value].id == id
      && forall k :: 0 <= k < r.value ==> ns[k].id != id)
    ensures r.None? <==> forall n :: n in ns ==> n.id != id
  {
    if ns == [] then None
    else if ns[0].id == id then Some(0)
    else
      var k := IndexOf(ns[1..], id);
      if k.Some? then Some(k.value + 1) else None
  }

  /** The notification collection. */
  class NotificationStore {
    var notifications: seq<Notification>
    var nextId: Id

    ghost predicate Valid()
      reads this
    {
      forall n :: n in notifications ==> n.id < nextId
    }

    constructor()
      ensures Valid() && notifications == [] && nextId == 0
    {
      notifications := [];
      nextId := 0;
    }

    /** `sendNotification`: stores the new notification and answers 201, or
        answers the validation error and stores nothing. */
    method Send(recipient: RecipientArg, sender: Id, titleEn: string, titleAr: string,
                messageEn: string, messageAr: string, kind: Option<string>, now: int) returns (r: Outcome<Notification>)
      requires Valid()
      modifies this
      ensures Valid()
      ensures r == NewNotification(old(nextId), recipient, sender, titleEn, titleAr, messageEn, messageAr, kind, now)
      ensures r.Ok? ==> notifications == old(notifications) + [r.value] && nextId == old(nextId) + 1
      ensures r.Err? ==> notifications == old(notifications) && nextId == old(nextId)
    {
      r := NewNotification(nextId, recipient, sender, titleEn, titleAr, messageEn, messageAr, kind, now);
      if r.Ok? {
        notifications := notifications + [r.value];
        nextId := nextId + 1;
      }
    }

    /** `markAsRead`: 404 for an unknown id; otherwise the found notification is
        replaced in place by `MarkRead`'s result, or left alone on 403. */
    method MarkAsRead(id: Id, userId: Id) returns (code: nat)
      requires Valid()
      modifies this`notifications
      ensures Valid()
      ensures var k := IndexOf(old(notifications), id);
        (k.None? ==> code == NotFound && notifications == old(notifications))
        && (k.Some? && MarkRead(old(notifications)[k.value], userId).Err? ==>
              code == Forbidden && notifications == old(notifications))
        && (k.Some? && MarkRead(old(notifications)[k.value], userId).Ok? ==>
              code == 200 && notifications == old(notifications)[k.value := MarkRead(old(notifications)[k.value], userId).value])
    {
      var k := IndexOf(notifications, id);
      if k.None? {
        return NotFound;
      }
      var i := k.value;
      var m := MarkRead(notifications[i], userId);
      if m.Err? {
        return m.code;
      }
      notifications := notifications[i := m.value];
      forall n | n in notifications ensures n.id < nextId {
        var j :| 0 <= j < |notifications| && notifications[j] == n;
        if j != i { assert n in old(notifications); } else { assert n.id == id; }
      }
      code := 200;
    }

    /** `deleteNotification`: 404 for an unknown id, 403 when `MayDelete` fails,
        otherwise the found notification is removed and 200 answered. */
    method Delete(id: Id, caller: User) returns (code: nat)
      requires Valid()
      modifies this`notifications
      ensures Valid()
      ensures var k := IndexOf(old(notifications), id);
        (k.None? ==> code == NotFound && notifications == old(notifications))
        && (k.Some? && !MayDelete(old(notifications)[k.value], caller) ==>
              code == Forbidden && notifications == old(notifications))
        && (k.Some? && MayDelete(old(notifications)[k.value], caller) ==>
              code == 200 && notifications == old(notifications[..k.value] + notifications[k.value + 1..]))
    {
      var k := IndexOf(notifications, id);
      if k.None? {
        return NotFound;
      }
      if !MayDelete(notifications[k.value], caller) {
        return Forbidden;
      }
      ghost var before := notifications;
      notifications := notifications[..k.value] + notifications[k.value + 1..];
      forall n | n in notifications ensures n.id < nextId {
        var j :| 0 <= j < |notifications| && notifications[j] == n;
        if j < k.value { assert n == before[j]; } else { assert n == before[j + 1]; }
      }
      code := 200;
    }
  }
}
