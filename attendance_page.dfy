/**
 * The attendance page (src/components/AttendancePage.tsx): a member search
 * with its own empty-term rule, the eligibility guard on a result, and the
 * newest-first list of today's check-ins.
 */
module Attendance {
  import opened Wrappers
  import opened Calendar
  import opened IsoDate
  import opened Seqs
  import Search

  /** A search candidate: the page's own member list carries only these fields. */
  datatype MemberSummary = MemberSummary(id: string, name: string, phone: string, isActive: bool)

  /** One check-in. */
  datatype AttendanceRecord = AttendanceRecord(
    id: string,
    memberName: string,
    memberId: string,
    checkInTime: string,
    date: string)

  predicate MatchesSummary(m: MemberSummary, term: string)
  {
    Search.Matches(m.name, m.phone, term)
  }

  /** The search effect: no results for an empty term, otherwise every matching member in list order. */
  function SearchResults(members: seq<MemberSummary>, term: string): (r: seq<MemberSummary>)
    ensures term == "" ==> r == []
    ensures |r| <= |members|
  {
    if |term| > 0 then Filter(members, m => MatchesSummary(m, term)) else []
  }

  /**
   * A non-empty term finds exactly the matching members, active or not: the
   * search itself does not look at `isActive`.
   */
  lemma SearchResultsMembership(members: seq<MemberSummary>, term: string, m: MemberSummary)
    requires term != ""
    ensures m in SearchResults(members, term) <==> m in members && MatchesSummary(m, term)
    ensures m.(isActive := !m.isActive) in members ==>
              (m.(isActive := !m.isActive) in SearchResults(members, term) <==> MatchesSummary(m, term))
  {
    FilterMembership(members, m => MatchesSummary(m, term), m);
    FilterMembership(members, m => MatchesSummary(m, term), m.(isActive := !m.isActive));
  }

  /** The results keep the member list's order. */
  lemma SearchResultsKeepOrder(a: seq<MemberSummary>, b: seq<MemberSummary>, term: string)
    ensures SearchResults(a + b, term) == SearchResults(a, term) + SearchResults(b, term)
  {
    if term != "" {
      FilterAppend(a, b, m => MatchesSummary(m, term));
    }
  }

  /** The record `handleCheckIn` builds for `member` at instant `now`. */
  function NewRecord(member: MemberSummary, id: string, checkInTime: string, now: Instant): (r: AttendanceRecord)
    requires ValidDate(now.date)
    ensures r.id == id && r.memberId == member.id && r.memberName == member.name && r.checkInTime == checkInTime
    ensures 0 <= now.date.year <= 9999 ==> Parse(r.date) == Some(now.date)
  {
    FormatThenParse(now.date);
    AttendanceRecord(id, member.name, member.id, checkInTime, Format(now.date))
  }

  /** The records of one member. */
  function RecordsOf(log: seq<AttendanceRecord>, memberId: string): seq<AttendanceRecord>
  {
    Filter(log, (r: AttendanceRecord) => r.memberId == memberId)
  }

  /** Checking the same member in twice gives two records: there is no duplicate check. */
  lemma {:induction false} NoDuplicateCheck(log: seq<AttendanceRecord>, member: MemberSummary,
                                            id1: string, id2: string, t1: string, t2: string, now: Instant)
    requires ValidDate(now.date)
    ensures var twice := [NewRecord(member, id2, t2, now)] + ([NewRecord(member, id1, t1, now)] + log);
            |RecordsOf(twice, member.id)| == |RecordsOf(log, member.id)| + 2
  {
    var r1, r2 := NewRecord(member, id1, t1, now), NewRecord(member, id2, t2, now);
    FilterAppend([r2], [r1] + log, (r: AttendanceRecord) => r.memberId == member.id);
    FilterAppend([r1], log, (r: AttendanceRecord) => r.memberId == member.id);
  }

  /** The page state: the search box, its results and today's list, newest first. */
  class AttendancePage {
    const members: seq<MemberSummary>
    var searchTerm: string
    var searchResults: seq<MemberSummary>
    var todayAttendance: seq<AttendanceRecord>

    /** The page after its mount effect has loaded today's records. */
    constructor (members: seq<MemberSummary>, today: seq<AttendanceRecord>)
      ensures this.members == members && searchTerm == "" && searchResults == [] && todayAttendance == today
    {
      this.members := members;
      searchTerm := "";
      searchResults := [];
      todayAttendance := today;
    }

    /** Typing in the search box; the effect on `searchTerm` recomputes the results. */
    method SetSearchTerm(term: string)
      modifies this
      ensures searchTerm == term && searchResults == SearchResults(members, term)
      ensures todayAttendance == old(todayAttendance)
    {
      searchTerm := term;
      searchResults := SearchResults(members, term);
    }

    /** `handleCheckIn`: put the new record first, then clear the search. */
    method CheckIn(member: MemberSummary, recordId: string, checkInTime: string, now: Instant)
      requires ValidDate(now.date)
      modifies this
      ensures todayAttendance == [NewRecord(member, recordId, checkInTime, now)] + old(todayAttendance)
      ensures todayAttendance[1..] == old(todayAttendance)
      ensures searchTerm == "" && searchResults == []
    {
      todayAttendance := [NewRecord(member, recordId, checkInTime, now)] + todayAttendance;
      searchTerm := "";
      searchResults := [];
    }

    /** A click on a search result: only an active member is checked in; an inactive one changes nothing. */
    method Click(member: MemberSummary, recordId: string, checkInTime: string, now: Instant)
      requires ValidDate(now.date)
      modifies this
      ensures member.isActive ==>
                todayAttendance == [NewRecord(member, recordId, checkInTime, now)] + old(todayAttendance) &&
                searchTerm == "" && searchResults == []
      ensures !member.isActive ==>
                todayAttendance == old(todayAttendance) && searchTerm == old(searchTerm) &&
                searchResults == old(searchResults)
    {
      if member.isActive {
        CheckIn(member, recordId, checkInTime, now);
      }
    }
  }
}
