/**
 * The member directory (src/components/MembersPage.tsx): the list of members,
 * its search, and the add, edit and delete handlers that replace it.
 */
module Members {
  import opened Wrappers
  import opened Calendar
  import opened IsoDate
  import opened Types
  import opened Seqs
  import Search
  import MemberModal

  /** The member-page search predicate on one member. */
  predicate MatchesMember(m: Member, term: string)
  {
    Search.Matches(m.name, m.phone, term)
  }

  /** `filteredMembers`: the members the search term matches, in list order. */
  function FilteredMembers(members: seq<Member>, term: string): (r: seq<Member>)
    ensures |r| <= |members|
    ensures forall m :: m in r ==> m in members && MatchesMember(m, term)
  {
    Filter(members, m => MatchesMember(m, term))
  }

  /** A member is shown exactly when it is in the list and matches the term. */
  lemma FilteredMembership(members: seq<Member>, term: string, m: Member)
    ensures m in FilteredMembers(members, term) <==> m in members && MatchesMember(m, term)
  {
    FilterMembership(members, m => MatchesMember(m, term), m);
  }

  /** The filter keeps the list order: filtering a concatenation filters each part. */
  lemma FilteredKeepsOrder(a: seq<Member>, b: seq<Member>, term: string)
    ensures FilteredMembers(a + b, term) == FilteredMembers(a, term) + FilteredMembers(b, term)
  {
    FilterAppend(a, b, m => MatchesMember(m, term));
  }

  /** An empty search term shows every member, in the original order. */
  lemma EmptySearchShowsAll(members: seq<Member>)
    ensures FilteredMembers(members, "") == members
  {
    forall i | 0 <= i < |members|
      ensures MatchesMember(members[i], "")
    {
      Search.EmptyTermMatches(members[i].name, members[i].phone);
    }
    FilterAll(members, m => MatchesMember(m, ""));
  }

  /** The record `handleAddMember` builds: a fresh id, the form fields, active, stamped with its creation time. */
  function NewMember(data: MemberFormData, id: string, createdAt: string): (m: Member)
    ensures MemberModal.FormOf(m) == data
    ensures m.id == id && m.isActive && m.createdAt == createdAt
  {
    Member(id, data.name, data.phone, data.subscriptionType, data.startDate, data.endDate,
           data.amountPaid, true, createdAt)
  }

  /** `{ ...member, ...memberData }`: the form fields over the stored record. */
  function Merge(m: Member, data: MemberFormData): (r: Member)
    ensures MemberModal.FormOf(r) == data
    ensures r.id == m.id && r.isActive == m.isActive && r.createdAt == m.createdAt
  {
    m.(name := data.name, phone := data.phone, subscriptionType := data.subscriptionType,
       startDate := data.startDate, endDate := data.endDate, amountPaid := data.amountPaid)
  }

  /** `members.map(...)` in `handleEditMember`: merge the form into every record with the given id. */
  function ApplyEdit(members: seq<Member>, id: string, data: MemberFormData): (r: seq<Member>)
    ensures |r| == |members|
    ensures forall i :: 0 <= i < |r| ==> r[i].id == members[i].id
  {
    if members == [] then []
    else [if members[0].id == id then Merge(members[0], data) else members[0]] + ApplyEdit(members[1..], id, data)
  }

  /** The edit keeps length and order and touches only the records with the edited id. */
  lemma {:induction false} ApplyEditAt(members: seq<Member>, id: string, data: MemberFormData)
    ensures |ApplyEdit(members, id, data)| == |members|
    ensures forall i :: 0 <= i < |members| ==>
              ApplyEdit(members, id, data)[i] == if members[i].id == id then Merge(members[i], data) else members[i]
  {
    if members != [] {
      ApplyEditAt(members[1..], id, data);
    }
  }

  /** Editing an id that no record has changes nothing. */
  lemma ApplyEditAbsent(members: seq<Member>, id: string, data: MemberFormData)
    requires forall i :: 0 <= i < |members| ==> members[i].id != id
    ensures ApplyEdit(members, id, data) == members
  {
    ApplyEditAt(members, id, data);
  }

  /** `members.filter(member => member.id !== id)`. */
  function RemoveById(members: seq<Member>, id: string): (r: seq<Member>)
    ensures |r| <= |members|
  {
    Filter(members, (m: Member) => m.id != id)
  }

  /** Delete keeps exactly the records with another id, in order, and drops one record per match. */
  lemma {:induction false} RemoveByIdSpec(members: seq<Member>, id: string)
    ensures forall m :: m in RemoveById(members, id) <==> m in members && m.id != id
    ensures |members| - |RemoveById(members, id)| == |Filter(members, (m: Member) => m.id == id)|
  {
    forall m ensures m in RemoveById(members, id) <==> m in members && m.id != id {
      FilterMembership(members, (m: Member) => m.id != id, m);
    }
    if members != [] {
      RemoveByIdSpec(members[1..], id);
    }
  }

  /** Deleting an id that no record has changes nothing. */
  lemma RemoveByIdAbsent(members: seq<Member>, id: string)
    requires forall i :: 0 <= i < |members| ==> members[i].id != id
    ensures RemoveById(members, id) == members
  {
    FilterAll(members, (m: Member) => m.id != id);
  }

  /** Delete keeps the order of the records it keeps. */
  lemma RemoveByIdKeepsOrder(a: seq<Member>, b: seq<Member>, id: string)
    ensures RemoveById(a + b, id) == RemoveById(a, id) + RemoveById(b, id)
  {
    FilterAppend(a, b, (m: Member) => m.id != id);
  }

  /** `getSubscriptionText`: the Arabic label of a plan, or the text itself for anything else. */
  function SubscriptionText(plan: string): (text: string)
    ensures plan == "monthly" ==> text == "شهري"
    ensures plan == "quarterly" ==> text == "ربع سنوي"
    ensures plan == "yearly" ==> text == "سنوي"
    ensures MemberModal.PlanMonths(plan) == 0 ==> text == plan
  {
    if plan == "monthly" then "شهري"
    else if plan == "quarterly" then "ربع سنوي"
    else if plan == "yearly" then "سنوي"
    else plan
  }

  /** The three plans get three different labels. */
  lemma SubscriptionTextsDistinct()
    ensures SubscriptionText("monthly") != SubscriptionText("quarterly")
    ensures SubscriptionText("monthly") != SubscriptionText("yearly")
    ensures SubscriptionText("quarterly") != SubscriptionText("yearly")
  {
    assert "شهري"[0] != "ربع سنوي"[0];
    assert "شهري" != "سنوي";
  }

  /**
   * `isExpired(endDate)`: `new Date(endDate) < new Date()`, with the current
   * instant as a parameter. An end date that does not parse is NaN, and NaN
   * compares false.
   */
  predicate IsExpired(endDate: string, now: Instant)
    requires ValidDate(now.date)
    ensures IsExpired(endDate, now) ==> Parse(endDate).Some?
  {
    match Parse(endDate)
    case None => false
    case Some(e) => DayNumber(e) * MsPerDay < TimeValue(now)
  }

  /** Once expired, a member stays expired at every later instant. */
  lemma IsExpiredMonotone(endDate: string, now: Instant, later: Instant)
    requires ValidDate(now.date) && ValidDate(later.date)
    requires TimeValue(now) <= TimeValue(later)
    ensures IsExpired(endDate, now) ==> IsExpired(endDate, later)
  {
  }

  /**
   * In calendar terms: a member is expired exactly when the end date is before
   * today, or is today and midnight has passed.
   */
  lemma IsExpiredCalendar(endDate: string, now: Instant)
    requires ValidInstant(now) && Parse(endDate).Some?
    ensures IsExpired(endDate, now) <==>
              Before(Parse(endDate).value, now.date) || (Parse(endDate).value == now.date && now.msOfDay > 0)
  {
    var e := Parse(endDate).value;
    DayNumberOrder(e, now.date);
    var a, b := DayNumber(e), DayNumber(now.date);
    if a < b {
      assert a * MsPerDay + MsPerDay <= b * MsPerDay;
    } else if a > b {
      assert b * MsPerDay + MsPerDay <= a * MsPerDay;
    }
  }

  /** A member whose end date was just computed from its start date is not expired on the start day. */
  lemma FreshSubscriptionNotExpired(startDate: string, plan: string, now: Instant)
    requires ValidInstant(now) && Parse(startDate).Some? && now.date == Parse(startDate).value
    requires MemberModal.PlanMonths(plan) > 0
    requires MemberModal.EndDate(Parse(startDate).value, plan).year <= 9999
    ensures MemberModal.CalculateEndDate(startDate, plan).Ok?
    ensures !IsExpired(MemberModal.CalculateEndDate(startDate, plan).value, now)
  {
    var d := Parse(startDate).value;
    var e := MemberModal.EndDate(d, plan);
    MemberModal.EndDateLater(d, plan);
    FormatThenParse(e);
    IsExpiredCalendar(Format(e), now);
    DayNumberOrder(d, e);
  }

  /**
   * The badge and the check-in guard disagree: the first sample member, whose
   * flag stays `isActive`, is shown as expired once its end date has passed.
   */
  lemma ExpiredYetActive()
    ensures var m := Member("1", "أحمد محمد", "0123456789", "monthly", "2024-01-01", "2024-02-01", 200.0, true, "2024-01-01");
            m.isActive && IsExpired(m.endDate, Instant(Date(2024, 3, 1), 0))
  {
    var e := Date(2024, 2, 1);
    assert Format(e) == "2024-02-01" by { MemberModal.YearDigits(2024); }
    FormatThenParse(e);
    IsExpiredCalendar("2024-02-01", Instant(Date(2024, 3, 1), 0));
  }

  /** Every record is marked active. */
  predicate AllActive(members: seq<Member>)
  {
    forall i :: 0 <= i < |members| ==> members[i].isActive
  }

  /** The `members` state of the page and the dialog state its handlers touch. */
  class MembersPage {
    var members: seq<Member>
    var searchTerm: string
    var isModalOpen: bool
    var editingMember: Option<Member>

    /** The page after its mount effect has loaded `initial`. */
    constructor (initial: seq<Member>)
      ensures members == initial && searchTerm == "" && !isModalOpen && editingMember == None
    {
      members := initial;
      searchTerm := "";
      isModalOpen := false;
      editingMember := None;
    }

    /** The members the page shows for its search term. */
    function Shown(): (r: seq<Member>)
      reads this
      ensures forall m :: m in r <==> m in members && MatchesMember(m, searchTerm)
    {
      var r := FilteredMembers(members, searchTerm);
      assert forall m :: m in r <==> m in members && MatchesMember(m, searchTerm) by {
        forall m ensures m in r <==> m in members && MatchesMember(m, searchTerm) {
          FilteredMembership(members, searchTerm, m);
        }
      }
      r
    }

    method SetSearchTerm(term: string)
      modifies this
      ensures searchTerm == term
      ensures members == old(members) && isModalOpen == old(isModalOpen) && editingMember == old(editingMember)
    {
      searchTerm := term;
    }

    /** The "add member" button: open the dialog with nothing being edited. */
    method OpenForAdd()
      modifies this
      ensures isModalOpen && editingMember == None
      ensures members == old(members) && searchTerm == old(searchTerm)
    {
      editingMember := None;
      isModalOpen := true;
    }

    /** The edit button of a card: open the dialog on that member. */
    method OpenForEdit(m: Member)
      modifies this
      ensures isModalOpen && editingMember == Some(m)
      ensures members == old(members) && searchTerm == old(searchTerm)
    {
      editingMember := Some(m);
      isModalOpen := true;
    }

    /** The dialog's close handler. */
    method CloseModal()
      modifies this
      ensures !isModalOpen && editingMember == None
      ensures members == old(members) && searchTerm == old(searchTerm)
    {
      isModalOpen := false;
      editingMember := None;
    }

    /** `handleAddMember`: append the new record and close the dialog. */
    method AddMember(data: MemberFormData, freshId: string, createdAt: string)
      modifies this
      ensures members == old(members) + [NewMember(data, freshId, createdAt)]
      ensures !isModalOpen
      ensures searchTerm == old(searchTerm) && editingMember == old(editingMember)
      ensures AllActive(old(members)) ==> AllActive(members)
    {
      members := members + [NewMember(data, freshId, createdAt)];
      isModalOpen := false;
    }

    /** `handleEditMember`: merge the form into the record being edited, if any, and close the dialog. */
    method EditMember(data: MemberFormData)
      modifies this
      ensures old(editingMember).None? ==>
                members == old(members) && isModalOpen == old(isModalOpen) && editingMember == None
      ensures old(editingMember).Some? ==>
                members == ApplyEdit(old(members), old(editingMember).value.id, data) &&
                editingMember == None && !isModalOpen
      ensures |members| == |old(members)|
      ensures searchTerm == old(searchTerm)
      ensures AllActive(old(members)) ==> AllActive(members)
    {
      ApplyEditAt(members, if editingMember.Some? then editingMember.value.id else "", data);
      if editingMember.Some? {
        members := ApplyEdit(members, editingMember.value.id, data);
        editingMember := None;
        isModalOpen := false;
      }
    }

    /** The dialog's submit: edit when a member is being edited, add otherwise. */
    method Submit(data: MemberFormData, freshId: string, createdAt: string)
      modifies this
      ensures old(editingMember).Some? ==> members == ApplyEdit(old(members), old(editingMember).value.id, data)
      ensures old(editingMember).None? ==> members == old(members) + [NewMember(data, freshId, createdAt)]
      ensures !isModalOpen && editingMember == None
      ensures searchTerm == old(searchTerm)
      ensures AllActive(old(members)) ==> AllActive(members)
    {
      if editingMember.Some? {
        EditMember(data);
      } else {
        AddMember(data, freshId, createdAt);
      }
    }

    /** `handleDeleteMember`: with the user's confirmation, drop every record with that id. */
    method DeleteMember(id: string, confirmed: bool)
      modifies this
      ensures members == if confirmed then RemoveById(old(members), id) else old(members)
      ensures searchTerm == old(searchTerm) && isModalOpen == old(isModalOpen) && editingMember == old(editingMember)
      ensures AllActive(old(members)) ==> AllActive(members)
    {
      if confirmed {
        RemoveByIdSpec(members, id);
        members := RemoveById(members, id);
      }
    }
  }
}
