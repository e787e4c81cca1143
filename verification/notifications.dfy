/** The notifications page (src/app/notifications.tsx): the stored list is
    replaced by the fetched one on mount and shown newest first, each card
    with a medium icon, a type badge and an unread highlight. */
module Notifications {
  import opened Js
  import Connections

  /** A notification as the server sends it. `kind` is its `type`; the
      status may be missing. */
  datatype Notification = Notification(
    id: string,
    kind: string,
    title: string,
    message: string,
    medium: string,
    createdAt: string,
    status: Option<string>)

  const FallbackBadge := "bg-gray-100 text-gray-800"

  /** The badge class for a type: one per known type, gray otherwise. */
  function TypeBadge(kind: string): (r: string)
    ensures kind == "transaction" ==> r == "bg-blue-400 text-blue-900"
    ensures kind == "security" ==> r == "bg-red-400 text-yellow-100"
    ensures kind == "system" ==> r == "bg-purple-400 text-purple-900"
    ensures kind == "promotional" ==> r == "bg-green-400 text-green-900"
    ensures r == FallbackBadge <==> kind !in {"transaction", "security", "system", "promotional"}
  {
    var variants := map[
      "transaction" := "bg-blue-400 text-blue-900",
      "security" := "bg-red-400 text-yellow-100",
      "system" := "bg-purple-400 text-purple-900",
      "promotional" := "bg-green-400 text-green-900"];
    if kind in variants && variants[kind] != "" then variants[kind] else FallbackBadge
  }

  datatype Icon = Mail | Smartphone | Bell

  /** The medium icon: a bell for push and for anything unknown. */
  function MediumIcon(medium: string): (r: Icon)
    ensures r == Mail <==> medium == "email"
    ensures r == Smartphone <==> medium == "sms"
    ensures r == Bell <==> medium != "email" && medium != "sms"
  {
    match medium
    case "email" => Mail
    case "sms" => Smartphone
    case "push" => Bell
    case _ => Bell
  }

  /** A card is highlighted when the status is missing or empty, or is
      "unread". */
  predicate Unread(n: Notification) {
    !Present(n.status) || n.status == Some("unread")
  }

  /** `[...list].reverse()`: the cards in display order. */
  function Displayed(list: seq<Notification>): (r: seq<Notification>)
    ensures |r| == |list|
    ensures forall i :: 0 <= i < |list| ==> r[i] == list[|list| - 1 - i]
  {
    if list == [] then [] else Displayed(list[1..]) + [list[0]]
  }

  /** Reversing for display twice gives the stored order back, so the
      display is a pure view of the list. */
  lemma DisplayedTwice(list: seq<Notification>)
    ensures Displayed(Displayed(list)) == list
  {
  }

  /** The newest (last stored) notification is shown first. */
  lemma NewestFirst(list: seq<Notification>, n: Notification)
    ensures Displayed(list + [n])[0] == n
    ensures Displayed(list + [n])[1..] == Displayed(list)
  {
    var r := Displayed(list + [n]);
    assert r[0] == (list + [n])[|list|];
    forall i | 0 <= i < |list|
      ensures r[1..][i] == Displayed(list)[i]
    {
      assert r[1..][i] == (list + [n])[|list| - 1 - i];
    }
  }

  /** The cards shown and the highlighted ones, and whether the empty notice
      is shown. */
  datatype View = View(cards: seq<Notification>, highlighted: seq<bool>, emptyNotice: bool)

  function Render(list: seq<Notification>): (r: View)
    ensures r.cards == Displayed(list)
    ensures |r.highlighted| == |r.cards|
    ensures forall i :: 0 <= i < |r.cards| ==> (r.highlighted[i] <==> Unread(r.cards[i]))
    ensures r.emptyNotice <==> r.cards == []
  {
    var cards := Displayed(list);
    View(cards, seq(|cards|, i requires 0 <= i < |cards| => Unread(cards[i])), |list| == 0)
  }

  /** The notice "No notifications." appears exactly when the list is
      empty. */
  lemma EmptyNoticeIff(list: seq<Notification>)
    ensures Render(list).emptyNotice <==> list == []
  {
  }

  /** On mount the stored list becomes exactly what the list fetch gives;
      `None` when the fetch gives something that is not a list, which the
      page cannot show. */
  function Mount(token: Option<string>, response: Connections.Response<Notification>): (r: (Option<seq<Notification>>, Option<string>))
    ensures r.1 == Connections.GetByType("notifications", true, token, response).token
    ensures r.0.Some? <==> Connections.GetByType("notifications", true, token, response).result.List?
    ensures r.0.Some? ==> List(r.0.value) == Connections.GetByType("notifications", true, token, response).result
  {
    var o := Connections.GetByType("notifications", true, token, response);
    (if o.result.List? then Some(o.result.items) else None, o.token)
  }

  /** A failed or unauthorised fetch leaves the page empty, showing the
      notice, whatever it showed before. */
  lemma FailedMountShowsNotice(token: Option<string>, response: Connections.Response<Notification>)
    requires response.Failed? || Connections.Unauthorized(response)
    ensures Mount(token, response).0 == Some([])
    ensures Render(Mount(token, response).0.value).emptyNotice
  {
  }

  /** A successful fetch replaces the list wholesale: nothing of the old list
      is kept. */
  lemma MountShowsServerList(token: Option<string>, status: int, list: seq<Notification>)
    requires status != 401 && list != []
    ensures Mount(token, Connections.Answered(status, Some(Obj(map["success" := Bool(true), "notifications" := List(list)])))).0 == Some(list)
  {
  }
}
