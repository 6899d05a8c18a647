/** Change events of the realtime subscriptions. Every event makes a page
    reload its table; a toast is raised only for a row the partner inserted. */
module Realtime {
  import opened Wrappers
  import opened SpaceContext

  datatype ChangeKind = Insert | Update | Delete

  /** A change event: its kind and the author field of the new row
      (`from_user` for letters, `user_name` for moods). */
  datatype ChangeEvent = ChangeEvent(kind: ChangeKind, author: string)

  /** `eventType === 'INSERT' && author !== displayName`. */
  predicate ShouldNotify(ev: ChangeEvent, displayName: string) {
    ev.kind == Insert && ev.author != displayName
  }

  /** In either space, the partner's new row raises a toast and one's own rows
      and non-insert events never do. */
  lemma NotifiesExactlyPartnerInserts(space: Option<Space>, ev: ChangeEvent)
    ensures ev.author == PartnerName(space) ==>
              (ShouldNotify(ev, DisplayName(space)) <==> ev.kind == Insert)
    ensures ev.author == DisplayName(space) ==> !ShouldNotify(ev, DisplayName(space))
    ensures ev.kind != Insert ==> !ShouldNotify(ev, DisplayName(space))
  {
    NamesDiffer(space);
  }
}
