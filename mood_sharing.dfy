/** The dashboard's mood widget (`components/MoodSharing.tsx`): each
    partner's latest mood, reloaded on every change of the `moods` table, and
    the "Connected" badge. The table is passed in as a sequence of rows. */
module MoodSharing {
  import opened Wrappers
  import opened Tables
  import opened SpaceContext
  import opened MoodPage

  class MoodSharing {
    var myMood: Option<Mood>
    var partnerMood: Option<Mood>

    constructor ()
      ensures myMood.None? && partnerMood.None?
    {
      myMood := None;
      partnerMood := None;
    }

    /** The badge is shown when both moods are known. */
    predicate Connected()
      reads this
    {
      myMood.Some? && partnerMood.Some?
    }

    /** `loadLatestMoods`: nothing without a space; otherwise each partner's
        newest mood replaces the shown one, and a partner without moods keeps
        the shown one. The two reads are separate queries: a failed read
        gives no row, so it keeps that side only. Once connected, the widget
        stays connected. */
    method LoadLatestMoods(space: Option<Space>, table: seq<Mood>, myReadFails: bool, partnerReadFails: bool)
      modifies this
      ensures space.None? || myReadFails ==> myMood == old(myMood)
      ensures space.None? || partnerReadFails ==> partnerMood == old(partnerMood)
      ensures space.Some? && !myReadFails ==>
                var mine := Newest(table, ByAuthor(DisplayName(space)), CreatedAt);
                myMood == if mine.Some? then mine else old(myMood)
      ensures space.Some? && !partnerReadFails ==>
                var theirs := Newest(table, ByAuthor(PartnerName(space)), CreatedAt);
                partnerMood == if theirs.Some? then theirs else old(partnerMood)
      ensures old(Connected()) ==> Connected()
    {
      if space.Some? {
        if !myReadFails {
          var myLatest := Newest(table, ByAuthor(DisplayName(space)), CreatedAt);
          if myLatest.Some? {
            myMood := myLatest;
          }
        }
        if !partnerReadFails {
          var partnerLatest := Newest(table, ByAuthor(PartnerName(space)), CreatedAt);
          if partnerLatest.Some? {
            partnerMood := partnerLatest;
          }
        }
      }
    }

    /** The subscription's callback: every event reloads. */
    method OnMoodChange(space: Option<Space>, table: seq<Mood>, myReadFails: bool, partnerReadFails: bool)
      modifies this
      ensures space.None? || myReadFails ==> myMood == old(myMood)
      ensures space.None? || partnerReadFails ==> partnerMood == old(partnerMood)
      ensures space.Some? && !myReadFails ==>
                var mine := Newest(table, ByAuthor(DisplayName(space)), CreatedAt);
                myMood == if mine.Some? then mine else old(myMood)
      ensures space.Some? && !partnerReadFails ==>
                var theirs := Newest(table, ByAuthor(PartnerName(space)), CreatedAt);
                partnerMood == if theirs.Some? then theirs else old(partnerMood)
    {
      LoadLatestMoods(space, table, myReadFails, partnerReadFails);
    }
  }

  /** After a load from a table where both partners have moods, the widget
      is connected and shows each partner's newest mood. */
  lemma BothMoodsConnect(space: Option<Space>, table: seq<Mood>, m1: Mood, m2: Mood)
    requires m1 in table && m1.userName == DisplayName(space)
    requires m2 in table && m2.userName == PartnerName(space)
    ensures var mine := Newest(table, ByAuthor(DisplayName(space)), CreatedAt);
            var theirs := Newest(table, ByAuthor(PartnerName(space)), CreatedAt);
            && mine.Some? && theirs.Some?
            && mine.value.userName == DisplayName(space) && theirs.value.userName == PartnerName(space)
            && mine.value.createdAt >= m1.createdAt && theirs.value.createdAt >= m2.createdAt
  {
    NewestSpec(table, ByAuthor(DisplayName(space)), CreatedAt);
    NewestSpec(table, ByAuthor(PartnerName(space)), CreatedAt);
  }
}
