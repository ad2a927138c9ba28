/** The dashboard page: a signed-in user's events, selected by owner,
    ordered by start time and converted to the wire form; without a user
    the page redirects to the login page and reads nothing. */
module Dashboard {
  import opened Common
  import opened Schema

  /** The signed-in user; only the id takes part in the query. */
  datatype User = User(id: string)

  /** What the page does: redirect, or render the event list. */
  datatype DashboardPage = RedirectTo(location: string) | Render(events: seq<EventClient>)

  // ---------------------------------------------------------------------
  // where(eq(events.userId, user.id))
  // ---------------------------------------------------------------------

  /** The rows of `table` owned by `userId`, in table order. */
  function OwnedBy(table: seq<EventRow>, userId: string): (r: seq<EventRow>)
    ensures forall i :: 0 <= i < |r| ==> r[i].userId == userId
    ensures forall e :: multiset(r)[e] == if e.userId == userId then multiset(table)[e] else 0
    decreases |table|
  {
    if table == [] then []
    else
      var rest := OwnedBy(table[1..], userId);
      assert table == [table[0]] + table[1..];
      if table[0].userId == userId then [table[0]] + rest else rest
  }

  /** The filter keeps the table's order. */
  lemma {:induction false} OwnedByIsSubsequence(table: seq<EventRow>, userId: string)
    ensures IsSubsequence(OwnedBy(table, userId), table)
    decreases |table|
  {
    if table != [] {
      OwnedByIsSubsequence(table[1..], userId);
      var rest := OwnedBy(table[1..], userId);
      if table[0].userId == userId {
        assert ([table[0]] + rest)[1..] == rest;
      }
    }
  }

  // ---------------------------------------------------------------------
  // orderBy(events.startTime)
  // ---------------------------------------------------------------------

  /** Non-decreasing by start instant. */
  predicate SortedByStart(s: seq<EventRow>)
  {
    forall i, j :: 0 <= i < j < |s| ==> s[i].startTime <= s[j].startTime
  }

  /** Puts `e` before the first row that does not start earlier than it. */
  function InsertByStart(e: EventRow, s: seq<EventRow>): (r: seq<EventRow>)
    requires SortedByStart(s)
    ensures SortedByStart(r)
    ensures multiset(r) == multiset(s) + multiset{e}
    ensures |r| == |s| + 1
    ensures r[0] == e || (s != [] && r[0] == s[0])
    decreases |s|
  {
    if s == [] || e.startTime <= s[0].startTime then [e] + s
    else
      var t := InsertByStart(e, s[1..]);
      assert s == [s[0]] + s[1..];
      assert forall j :: 0 <= j < |t| ==> s[0].startTime <= t[j].startTime by {
        forall j | 0 <= j < |t|
          ensures s[0].startTime <= t[j].startTime
        {
          assert s[0].startTime <= t[0].startTime;
          assert t[0].startTime <= t[j].startTime || j == 0;
        }
      }
      [s[0]] + t
  }

  /** The rows ordered by start instant; rows with equal starts keep their
      table order. */
  function SortByStart(s: seq<EventRow>): (r: seq<EventRow>)
    ensures SortedByStart(r)
    ensures multiset(r) == multiset(s)
    ensures |r| == |s|
    decreases |s|
  {
    if s == [] then []
    else
      assert s == [s[0]] + s[1..];
      InsertByStart(s[0], SortByStart(s[1..]))
  }

  /** Rows already in order come back unchanged, so sorting twice is
      sorting once. */
  lemma {:induction false} SortSortedIsIdentity(s: seq<EventRow>)
    requires SortedByStart(s)
    ensures SortByStart(s) == s
    decreases |s|
  {
    if s != [] {
      var tail := s[1..];
      assert SortedByStart(tail) by {
        forall i, j | 0 <= i < j < |tail|
          ensures tail[i].startTime <= tail[j].startTime
        {
          assert tail[i] == s[i + 1] && tail[j] == s[j + 1];
        }
      }
      SortSortedIsIdentity(tail);
      assert tail == [] || s[0].startTime <= tail[0].startTime by {
        if tail != [] {
          assert tail[0] == s[1];
        }
      }
      assert [s[0]] + tail == s;
    }
  }

  lemma SortByStartIdempotent(s: seq<EventRow>)
    ensures SortByStart(SortByStart(s)) == SortByStart(s)
  {
    SortSortedIsIdentity(SortByStart(s));
  }

  // ---------------------------------------------------------------------
  // The query and the page
  // ---------------------------------------------------------------------

  /** `select().from(events).where(eq(userId, id)).orderBy(startTime)`:
      exactly the user's rows, each as often as it is stored, in start
      order. The table itself is a value and is not changed. */
  function ListEvents(table: seq<EventRow>, userId: string): (r: seq<EventRow>)
    ensures SortedByStart(r)
    ensures forall i :: 0 <= i < |r| ==> r[i].userId == userId
    ensures forall e :: multiset(r)[e] == if e.userId == userId then multiset(table)[e] else 0
    ensures forall e :: e in r <==> e in table && e.userId == userId
  {
    var r := SortByStart(OwnedBy(table, userId));
    assert forall e :: e in r <==> multiset(r)[e] > 0;
    assert forall e :: e in table <==> multiset(table)[e] > 0;
    r
  }

  /** `userEvents.map(toClientEvent)`. */
  function ToClientEvents(rows: seq<EventRow>, toIso: Instant -> string): (r: seq<EventClient>)
    ensures |r| == |rows|
    ensures forall i :: 0 <= i < |rows| ==> r[i] == ToClientEvent(rows[i], toIso)
    decreases |rows|
  {
    if rows == [] then [] else [ToClientEvent(rows[0], toIso)] + ToClientEvents(rows[1..], toIso)
  }

  /** The login page the guard sends an anonymous visitor to. */
  const LoginPath: string := "/login"

  /** The dashboard: without a user it redirects; otherwise it renders the
      user's events in start order, in the wire form. */
  function Dashboard(user: Option<User>, table: seq<EventRow>, toIso: Instant -> string): (page: DashboardPage)
    ensures user.None? ==> page == RedirectTo(LoginPath)
    ensures user.Some? ==> page.Render? && |page.events| == |ListEvents(table, user.value.id)|
    ensures user.Some? ==> forall i :: 0 <= i < |page.events| ==>
              page.events[i].userId == user.value.id &&
              page.events[i] == ToClientEvent(ListEvents(table, user.value.id)[i], toIso)
  {
    if user.None? then RedirectTo(LoginPath)
    else Render(ToClientEvents(ListEvents(table, user.value.id), toIso))
  }

  /** The guard runs before the query: the redirect does not depend on
      the table. */
  lemma {:induction false} RedirectIgnoresTable(t1: seq<EventRow>, t2: seq<EventRow>, toIso: Instant -> string)
    ensures Dashboard(None, t1, toIso) == Dashboard(None, t2, toIso) == RedirectTo(LoginPath)
  {
  }

  /** Every stored row of the user is rendered. */
  lemma DashboardComplete(user: User, table: seq<EventRow>, toIso: Instant -> string, e: EventRow)
    requires e in table && e.userId == user.id
    ensures exists i :: 0 <= i < |Dashboard(Some(user), table, toIso).events| &&
                        Dashboard(Some(user), table, toIso).events[i] == ToClientEvent(e, toIso)
  {
    var rows := ListEvents(table, user.id);
    var i :| 0 <= i < |rows| && rows[i] == e;
    assert Dashboard(Some(user), table, toIso).events[i] == ToClientEvent(e, toIso);
  }

  /** Every rendered event is a converted stored row of the user. */
  lemma DashboardSound(user: User, table: seq<EventRow>, toIso: Instant -> string, i: int)
    requires 0 <= i < |Dashboard(Some(user), table, toIso).events|
    ensures exists e :: e in table && e.userId == user.id &&
                        Dashboard(Some(user), table, toIso).events[i] == ToClientEvent(e, toIso)
  {
    var rows := ListEvents(table, user.id);
    assert rows[i] in rows;
  }
}
