/**
 * The agent ID card: used on an entity with access, it copies that entity's
 * access tags into its own and reports how many were new.
 */
module AgentIdCard {
  import opened Common

  /** The popup shown after a merge, by message key. */
  datatype Message =
    | NoNew               // "agent-id-no-new"
    | NewOne              // "agent-id-new-1"
    | NewMany(number: int) // "agent-id-new", with the number added

  /** The number of new tags a message reports. */
  function ReportedCount(m: Message): int
  {
    match m
    case NoNew => 0
    case NewOne => 1
    case NewMany(n) => n
  }

  /** Picks the popup for the number of tags added. */
  function Classify(added: int): (m: Message)
    ensures ReportedCount(m) == added
    ensures m.NewMany? ==> added != 0 && added != 1
  {
    if added == 0 then NoNew
    else if added == 1 then NewOne
    else NewMany(added)
  }

  /** The tags after a merge and the count difference the handler computes. */
  datatype MergeResult = MergeResult(tags: set<string>, added: int)

  /**
   * Union of the target's tags into the card's, with the added count taken
   * as the difference of the sizes before and after.
   */
  function Merge(card: set<string>, incoming: set<string>): (r: MergeResult)
    ensures card <= r.tags && incoming <= r.tags
    ensures forall tag :: tag in r.tags ==> tag in card || tag in incoming
    ensures r.added == |incoming - card|
  {
    MergeResult(card + incoming, |card + incoming| - |card|)
  }

  /** The report of a merge that went ahead. */
  datatype Report = Report(added: int, message: Message)

  /** An access component: a mutable set of access tags. */
  class AccessComponent {
    var Tags: set<string>

    constructor (tags: set<string>)
      ensures Tags == tags
    {
      Tags := tags;
    }
  }

  /** The agent ID card entity, with the components the handler looks up on it. */
  class AgentIdCardComponent {
    /** The card's own access component, if it has one. */
    const Access: AccessComponent?
    /** Whether the card has an ID card component. */
    const HasIdCard: bool

    constructor (access: AccessComponent?, hasIdCard: bool)
      ensures Access == access && HasIdCard == hasIdCard
    {
      Access := access;
      HasIdCard := hasIdCard;
    }

    /**
     * The AfterInteract handler. `target` is the entity interacted with, if
     * any, and `targetAccess` its access component, if it has one. The ID
     * card component is looked up on the card itself, in both guards.
     */
    method OnAfterInteract(target: Option<EntityId>, targetAccess: AccessComponent?)
      returns (report: Option<Report>)
      modifies Access
      ensures report.Some? <==> targetAccess != null && HasIdCard && target.Some? && Access != null
      ensures report.None? && Access != null ==> Access.Tags == old(Access.Tags)
      ensures report.Some? ==>
                Access.Tags == Merge(old(Access.Tags), old(targetAccess.Tags)).tags
                && report.value.added == Merge(old(Access.Tags), old(targetAccess.Tags)).added
                && report.value.message == Classify(report.value.added)
      ensures targetAccess != null ==> targetAccess.Tags == old(targetAccess.Tags)
    {
      if targetAccess == null || !HasIdCard || target.None? {
        return None;
      }
      if Access == null || !HasIdCard {
        return None;
      }
      var beforeLength := |Access.Tags|;
      Access.Tags := Access.Tags + targetAccess.Tags;
      var addedLength := |Access.Tags| - beforeLength;

      if addedLength == 0 {
        return Some(Report(addedLength, NoNew));
      } else if addedLength == 1 {
        return Some(Report(addedLength, NewOne));
      }
      report := Some(Report(addedLength, NewMany(addedLength)));
    }
  }

  // ------------------------------------------------------------------
  // Properties of the merge
  // ------------------------------------------------------------------

  /** The added count is never negative, and zero exactly when nothing was new. */
  lemma AddedCountIsNewTags(card: set<string>, incoming: set<string>)
    ensures Merge(card, incoming).added >= 0
    ensures Merge(card, incoming).added == 0 <==> incoming <= card
    ensures Merge(card, incoming).tags == card <==> incoming <= card
  {
    if Merge(card, incoming).added == 0 {
      assert incoming - card == {};
      forall tag | tag in incoming ensures tag in card {
        assert tag !in incoming - card;
      }
    }
    if Merge(card, incoming).tags == card {
      forall tag | tag in incoming ensures tag in card {
        assert tag in Merge(card, incoming).tags;
      }
    }
  }

  /** Repeating a merge adds nothing and leaves the tags as they were. */
  lemma MergeIdempotent(card: set<string>, incoming: set<string>)
    ensures Merge(Merge(card, incoming).tags, incoming) == MergeResult(Merge(card, incoming).tags, 0)
    ensures Classify(Merge(Merge(card, incoming).tags, incoming).added) == NoNew
  {
  }

  /** The merged tag set does not depend on which holder is the card. */
  lemma MergeTagsCommute(a: set<string>, b: set<string>)
    ensures Merge(a, b).tags == Merge(b, a).tags
  {
  }

  /** A card holding {X} merged with {X, Y, Z} gains two tags and reports the number. */
  lemma MergeAddsTwo()
    ensures Merge({"X"}, {"X", "Y", "Z"}) == MergeResult({"X", "Y", "Z"}, 2)
    ensures Classify(2) == NewMany(2)
  {
  }

  /** A card already holding every tag of the target gains none. */
  lemma MergeAddsNone()
    ensures Merge({"X", "Y"}, {"X", "Y"}) == MergeResult({"X", "Y"}, 0)
    ensures Classify(0) == NoNew
  {
  }
}
