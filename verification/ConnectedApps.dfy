/** Which applications use the tunnel: the grouping and sorting in `connected_apps` (`src-tauri/src/tunnel.rs`). */
module ConnectedApps {
  import opened Decimal
  import opened Wrappers

  /** One line of `netstat`: whether it says ESTABLISHED, and its fields. */
  datatype Row = Row(established: bool, fields: seq<string>)

  datatype App = App(name: string, pid: nat, connections: nat, ports: seq<nat>)

  function Needle(localPort: nat): string { "127.0.0.1:" + Numeral(localPort) }

  function PidIn(row: Row): Option<int>
    requires |row.fields| >= 5
  {
    ParseIn(row.fields[4], 0, 0xFFFF_FFFF)
  }

  /** A connection into our listener, by a process that has a number. */
  predicate Qualifies(row: Row, localPort: nat) {
    row.established && |row.fields| >= 5 && row.fields[2] == Needle(localPort) && PidIn(row).Some?
  }

  function Pid(row: Row, localPort: nat): nat
    requires Qualifies(row, localPort)
  {
    PidIn(row).value
  }

  function AfterLastColon(s: string): string {
    if s == [] || s[|s| - 1] == ':' then [] else AfterLastColon(s[..|s| - 1]) + [s[|s| - 1]]
  }

  /** The port the application connects from; 0 if it cannot be read. */
  function Port(row: Row, localPort: nat): nat
    requires Qualifies(row, localPort)
  {
    var p := ParseIn(AfterLastColon(row.fields[1]), 0, 65535);
    if p.Some? then p.value else 0
  }

  // ---- What a row says ----

  /** What stands after the last colon, or the whole text if there is none. */
  predicate EndsAfterColon(s: string, t: string) {
    (forall i | 0 <= i < |t| :: t[i] != ':') && |t| <= |s| && s[|s| - |t|..] == t && (|t| < |s| ==> s[|s| - |t| - 1] == ':')
  }

  lemma EndsOneLater(front: string, t: string, c: char, s: string)
    requires EndsAfterColon(front, t) && c != ':' && s == front + [c]
    ensures EndsAfterColon(s, t + [c])
  {
    var n := |front| - |t|;
    assert s[n..] == front[n..] + [c];
    if n > 0 { assert s[n - 1] == front[n - 1]; }
  }

  lemma {:induction false} AfterLastColonIs(s: string)
    ensures EndsAfterColon(s, AfterLastColon(s))
  {
    if s != [] && s[|s| - 1] != ':' {
      var m := |s| - 1;
      AfterLastColonIs(s[..m]);
      EndsOneLater(s[..m], AfterLastColon(s[..m]), s[m], s);
    }
  }

  /** The text is a number in unsigned type of that size. */
  predicate ReadsAs(s: string, n: nat, size: nat) { Parse(s) == Some(n) && n < size && s[0] != '-' }

  /** The port the text ends in: a number after its last colon, and 0 if that is no number. */
  ghost predicate EndsInPort(s: string, port: nat) {
    exists text :: EndsAfterColon(s, text) && PortText(text, port)
  }

  ghost predicate PortText(text: string, port: nat) {
    ReadsAs(text, port, 65536) || (port == 0 && forall n: nat :: !ReadsAs(text, n, 65536))
  }

  /** The row is an established connection from `port` into the listener on `localPort`, by process `pid`. */
  ghost predicate Connects(row: Row, localPort: nat, pid: nat, port: nat) {
    && row.established && |row.fields| >= 5
    && row.fields[2] == "127.0.0.1:" + Numeral(localPort)
    && ReadsAs(row.fields[4], pid, 0x1_0000_0000)
    && EndsInPort(row.fields[1], port)
  }

  lemma OneEnd(s: string, a: string, b: string)
    requires EndsAfterColon(s, a) && EndsAfterColon(s, b)
    ensures |a| >= |b|
  {
  }

  function PortRead(text: string): nat {
    var p := ParseIn(text, 0, 65535);
    if p.Some? then p.value else 0
  }

  lemma PortTextIff(text: string, port: nat)
    ensures PortText(text, port) <==> port == PortRead(text)
  {
    var p := ParseIn(text, 0, 65535);
    if p.Some? {
      ParseInIff(text, 0, 65535, p.value);
      assert ReadsAs(text, p.value, 65536);
    }
    forall n: nat | ReadsAs(text, n, 65536) ensures p == Some(n) { ParseInIff(text, 0, 65535, n); }
  }

  lemma EndsInPortIff(s: string, port: nat)
    ensures EndsInPort(s, port) <==> port == PortRead(AfterLastColon(s))
  {
    var text := AfterLastColon(s);
    AfterLastColonIs(s);
    PortTextIff(text, port);
    if EndsInPort(s, port) {
      var t :| EndsAfterColon(s, t) && PortText(t, port);
      OneEnd(s, t, text);
      OneEnd(s, text, t);
      assert t == text;
    }
  }

  /** A row is taken, for a process and with a port, exactly if it says so. */
  lemma ConnectsIff(row: Row, localPort: nat, pid: nat, port: nat)
    ensures Connects(row, localPort, pid, port) <==>
      Qualifies(row, localPort) && Pid(row, localPort) == pid && Port(row, localPort) == port
  {
    if |row.fields| >= 5 {
      ParseInIff(row.fields[4], 0, 0xFFFF_FFFF, pid);
      EndsInPortIff(row.fields[1], port);
    }
  }

  /** How many rows say that a process connects from a port. */
  ghost function RowsFrom(rows: seq<Row>, localPort: nat, pid: nat, port: nat): nat {
    if rows == [] then 0
    else
      RowsFrom(rows[..|rows| - 1], localPort, pid, port) +
        if Connects(rows[|rows| - 1], localPort, pid, port) then 1 else 0
  }

  // ---- Specification ----

  function PortsOf(rows: seq<Row>, localPort: nat, pid: nat): seq<nat> {
    if rows == [] then []
    else
      var last := rows[|rows| - 1];
      PortsOf(rows[..|rows| - 1], localPort, pid)
      + if Qualifies(last, localPort) && Pid(last, localPort) == pid then [Port(last, localPort)] else []
  }

  lemma PortsNext(rows: seq<Row>, localPort: nat, pid: nat, port: nat)
    requires rows != []
    ensures var m := |rows| - 1;
      multiset(PortsOf(rows, localPort, pid))[port] == multiset(PortsOf(rows[..m], localPort, pid))[port] +
        if Qualifies(rows[m], localPort) && Pid(rows[m], localPort) == pid && Port(rows[m], localPort) == port then 1 else 0
  {
  }

  /** A port is listed for a process as often as a row says so. */
  lemma {:induction false} PortsAreTheRows(rows: seq<Row>, localPort: nat, pid: nat, port: nat)
    ensures multiset(PortsOf(rows, localPort, pid))[port] == RowsFrom(rows, localPort, pid, port)
  {
    if rows != [] {
      var m := |rows| - 1;
      PortsAreTheRows(rows[..m], localPort, pid, port);
      ConnectsIff(rows[m], localPort, pid, port);
      PortsNext(rows, localPort, pid, port);
    }
  }

  function Qualifying(rows: seq<Row>, localPort: nat): nat {
    if rows == [] then 0
    else Qualifying(rows[..|rows| - 1], localPort) + if Qualifies(rows[|rows| - 1], localPort) then 1 else 0
  }

  predicate Distinct(pids: seq<nat>) { forall i, j | 0 <= i < j < |pids| :: pids[i] != pids[j] }

  function Sum(rows: seq<Row>, localPort: nat, pids: seq<nat>): nat {
    if pids == [] then 0
    else Sum(rows, localPort, pids[..|pids| - 1]) + |PortsOf(rows, localPort, pids[|pids| - 1])|
  }

  /** One more row counts for its process, if that is among them, and for no other. */
  lemma {:induction false} SumOfOneMore(rows: seq<Row>, localPort: nat, pids: seq<nat>, row: Row)
    requires Distinct(pids)
    ensures Sum(rows + [row], localPort, pids) ==
      Sum(rows, localPort, pids) + if Qualifies(row, localPort) && Pid(row, localPort) in pids then 1 else 0
  {
    if pids != [] {
      var m := |pids| - 1;
      SumOfOneMore(rows, localPort, pids[..m], row);
      assert (rows + [row])[..|rows|] == rows;
      assert pids == pids[..m] + [pids[m]];
    }
  }

  lemma {:induction false} SumOfNone(localPort: nat, pids: seq<nat>)
    ensures Sum([], localPort, pids) == 0
  {
    if pids != [] { SumOfNone(localPort, pids[..|pids| - 1]); }
  }

  /** The rows are conserved: over all the processes they have, each counted once, the ports are as many as the
      qualifying rows. */
  lemma {:induction false} Conserved(rows: seq<Row>, localPort: nat, pids: seq<nat>)
    requires Distinct(pids)
    requires forall i | 0 <= i < |rows| :: Qualifies(rows[i], localPort) ==> Pid(rows[i], localPort) in pids
    ensures Sum(rows, localPort, pids) == Qualifying(rows, localPort)
  {
    if rows == [] {
      SumOfNone(localPort, pids);
    } else {
      var m := |rows| - 1;
      Conserved(rows[..m], localPort, pids);
      SumOfOneMore(rows[..m], localPort, pids, rows[m]);
      assert rows[..m] + [rows[m]] == rows;
    }
  }

  lemma {:induction false} RowHasPort(rows: seq<Row>, localPort: nat, i: nat)
    requires i < |rows| && Qualifies(rows[i], localPort)
    ensures PortsOf(rows, localPort, Pid(rows[i], localPort)) != []
  {
    var m := |rows| - 1;
    var front, pid := rows[..m], Pid(rows[i], localPort);
    if i < m {
      assert front[i] == rows[i];
      RowHasPort(front, localPort, i);
    }
    PortsLast(front, rows[m], localPort, pid);
    assert front + [rows[m]] == rows;
  }

  lemma PortsLast(front: seq<Row>, last: Row, localPort: nat, pid: nat)
    ensures |PortsOf(front + [last], localPort, pid)| ==
      |PortsOf(front, localPort, pid)| + if Qualifies(last, localPort) && Pid(last, localPort) == pid then 1 else 0
  {
    assert (front + [last])[..|front|] == front;
  }

  // ---- Sorting ----

  predicate Ascending<T>(xs: seq<T>, key: T -> int) { forall i, j | 0 <= i < j < |xs| :: key(xs[i]) <= key(xs[j]) }

  function Insert<T>(xs: seq<T>, key: T -> int, x: T): seq<T> {
    if xs == [] || key(x) < key(xs[0]) then [x] + xs else [xs[0]] + Insert(xs[1..], key, x)
  }

  lemma {:induction false} InsertAdds<T>(xs: seq<T>, key: T -> int, x: T)
    ensures multiset(Insert(xs, key, x)) == multiset(xs) + multiset{x}
  {
    if xs != [] {
      InsertAdds(xs[1..], key, x);
      assert xs == [xs[0]] + xs[1..];
    }
  }

  lemma AscendingCons<T>(x: T, rest: seq<T>, key: T -> int)
    requires Ascending(rest, key) && forall i | 0 <= i < |rest| :: key(x) <= key(rest[i])
    ensures Ascending([x] + rest, key)
  {
  }

  lemma {:induction false} InsertKeeps<T>(xs: seq<T>, key: T -> int, x: T)
    requires Ascending(xs, key)
    ensures Ascending(Insert(xs, key, x), key)
  {
    if xs == [] || key(x) < key(xs[0]) {
      AscendingCons(x, xs, key);
    } else {
      var tail, rest := xs[1..], Insert(xs[1..], key, x);
      InsertKeeps(tail, key, x);
      InsertAdds(tail, key, x);
      forall i | 0 <= i < |rest| ensures key(xs[0]) <= key(rest[i]) {
        assert rest[i] in multiset(rest);
        assert rest[i] in tail || rest[i] == x;
      }
      AscendingCons(xs[0], rest, key);
    }
  }

  method SortBy<T>(xs: seq<T>, key: T -> int) returns (sorted: seq<T>)
    ensures Ascending(sorted, key) && multiset(sorted) == multiset(xs)
  {
    sorted := [];
    for i := 0 to |xs|
      invariant Ascending(sorted, key) && multiset(sorted) == multiset(xs[..i])
    {
      InsertKeeps(sorted, key, xs[i]);
      InsertAdds(sorted, key, xs[i]);
      sorted := Insert(sorted, key, xs[i]);
      assert xs[..i + 1] == xs[..i] + [xs[i]];
    }
    assert xs[..|xs|] == xs;
  }

  // ---- The function itself ----

  /** Every process with qualifying rows, with its ports in the order of the rows. */
  ghost predicate Grouped(byPid: map<nat, seq<nat>>, rows: seq<Row>, localPort: nat) {
    && (forall pid: nat :: pid in byPid <==> PortsOf(rows, localPort, pid) != [])
    && (forall pid | pid in byPid :: byPid[pid] == PortsOf(rows, localPort, pid))
  }

  lemma GroupedNext(byPid: map<nat, seq<nat>>, rows: seq<Row>, localPort: nat, row: Row)
    requires Grouped(byPid, rows, localPort)
    ensures !Qualifies(row, localPort) ==> Grouped(byPid, rows + [row], localPort)
    ensures Qualifies(row, localPort) ==>
      var pid := Pid(row, localPort);
      var had := if pid in byPid then byPid[pid] else [];
      Grouped(byPid[pid := had + [Port(row, localPort)]], rows + [row], localPort)
  {
    assert (rows + [row])[..|rows|] == rows;
  }

  method Group(rows: seq<Row>, localPort: nat) returns (byPid: map<nat, seq<nat>>)
    ensures Grouped(byPid, rows, localPort)
  {
    byPid := map[];
    for i := 0 to |rows|
      invariant Grouped(byPid, rows[..i], localPort)
    {
      GroupedNext(byPid, rows[..i], localPort, rows[i]);
      assert rows[..i + 1] == rows[..i] + [rows[i]];
      if Qualifies(rows[i], localPort) {
        var pid := Pid(rows[i], localPort);
        var had := if pid in byPid then byPid[pid] else [];
        byPid := byPid[pid := had + [Port(rows[i], localPort)]];
      }
    }
    assert rows[..|rows|] == rows;
  }

  /** One process as reported. The count is kept in 32 bits. */
  predicate Reports(app: App, rows: seq<Row>, localPort: nat, names: map<nat, string>) {
    && app.name == (if app.pid in names then names[app.pid] else "PID " + Numeral(app.pid))
    && multiset(app.ports) == multiset(PortsOf(rows, localPort, app.pid))
    && Ascending(app.ports, (p: nat) => p as int)
    && app.connections == |app.ports| % 0x1_0000_0000
  }

  function Pids(apps: seq<App>): (pids: seq<nat>)
    ensures |pids| == |apps| && forall i | 0 <= i < |apps| :: pids[i] == apps[i].pid
  {
    if apps == [] then [] else Pids(apps[..|apps| - 1]) + [apps[|apps| - 1].pid]
  }

  method DescribeOne(rows: seq<Row>, localPort: nat, names: map<nat, string>, pid: nat, unsorted: seq<nat>)
    returns (app: App)
    requires unsorted == PortsOf(rows, localPort, pid)
    ensures app.pid == pid && Reports(app, rows, localPort, names)
  {
    var ports := SortBy(unsorted, (p: nat) => p as int);
    var name := if pid in names then names[pid] else "PID " + Numeral(pid);
    app := App(name, pid, |ports| % 0x1_0000_0000, ports);
  }

  /** One entry for each process that is no longer left. */
  ghost predicate Covers(pids: seq<nat>, all: set<nat>, left: set<nat>) {
    && left <= all && Distinct(pids)
    && forall pid: nat :: pid in pids <==> pid in all && pid !in left
  }

  lemma CoversNext(pids: seq<nat>, all: set<nat>, left: set<nat>, pid: nat)
    requires Covers(pids, all, left) && pid in left
    ensures Covers(pids + [pid], all, left - {pid})
  {
    assert pid !in pids;
  }

  lemma OneMorePid(apps: seq<App>, app: App)
    ensures Pids(apps + [app]) == Pids(apps) + [app.pid]
  {
    assert (apps + [app])[..|apps|] == apps;
  }

  ghost predicate AllReport(apps: seq<App>, rows: seq<Row>, localPort: nat, names: map<nat, string>) {
    forall i | 0 <= i < |apps| :: Reports(apps[i], rows, localPort, names)
  }

  method Describe(rows: seq<Row>, localPort: nat, names: map<nat, string>, byPid: map<nat, seq<nat>>)
    returns (apps: seq<App>)
    requires Grouped(byPid, rows, localPort)
    ensures Covers(Pids(apps), byPid.Keys, {}) && AllReport(apps, rows, localPort, names)
  {
    apps := [];
    var left := byPid.Keys;
    while left != {}
      invariant Covers(Pids(apps), byPid.Keys, left) && AllReport(apps, rows, localPort, names)
      decreases |left|
    {
      var pid :| pid in left;
      var app := DescribeOne(rows, localPort, names, pid, byPid[pid]);
      OneMorePid(apps, app);
      CoversNext(Pids(apps), byPid.Keys, left, pid);
      apps := apps + [app];
      left := left - {pid};
    }
  }

  // ---- Sorting keeps one entry for each process ----

  lemma TwiceIn(s: seq<App>, i: nat, j: nat)
    requires i < j < |s| && s[i] == s[j]
    ensures multiset(s)[s[i]] >= 2
  {
    assert s == s[..j] + s[j..];
    assert s[..j][i] == s[i] && s[j..][0] == s[j];
  }

  lemma OnceIn(s: seq<App>, i: nat)
    requires i < |s| && forall k | 0 <= k < |s| :: k != i ==> s[k] != s[i]
    ensures multiset(s)[s[i]] == 1
  {
    var x, before, after := s[i], s[..i], s[i + 1..];
    assert s == before + ([x] + after);
    assert x !in multiset(before) by { assert x !in before; }
    assert x !in multiset(after) by { assert x !in after; }
  }

  lemma PermutedDistinct(a: seq<App>, b: seq<App>)
    requires multiset(a) == multiset(b) && Distinct(Pids(a))
    ensures Distinct(Pids(b)) && forall pid: nat :: pid in Pids(a) <==> pid in Pids(b)
    ensures forall x | x in b :: x in a
  {
    forall x ensures x in a <==> x in b { assert x in multiset(a) <==> x in multiset(b); }
    forall i, j | 0 <= i < j < |b| ensures Pids(b)[i] != Pids(b)[j] {
      assert b[i] in a && b[j] in a;
      var k :| 0 <= k < |a| && a[k] == b[i];
      var l :| 0 <= l < |a| && a[l] == b[j];
      if b[i].pid == b[j].pid {
        assert Pids(a)[k] == Pids(a)[l] && k == l;
        TwiceIn(b, i, j);
        assert forall n | 0 <= n < |a| && n != k :: Pids(a)[n] != Pids(a)[k];
        OnceIn(a, k);
        assert false;
      }
    }
    SamePids(a, b);
    SamePids(b, a);
  }

  lemma SamePids(a: seq<App>, b: seq<App>)
    requires forall x | x in a :: x in b
    ensures forall pid: nat | pid in Pids(a) :: pid in Pids(b)
  {
    forall pid: nat | pid in Pids(a) ensures pid in Pids(b) {
      var i :| 0 <= i < |a| && Pids(a)[i] == pid;
      assert a[i] in b;
      var k :| 0 <= k < |b| && b[k] == a[i];
      assert Pids(b)[k] == pid;
    }
  }

  /** Each process is reported with each port as often as a row connects it from there. */
  ghost predicate ListsTheRows(apps: seq<App>, rows: seq<Row>, localPort: nat) {
    forall i, port: nat | 0 <= i < |apps| ::
      multiset(apps[i].ports)[port] == RowsFrom(rows, localPort, apps[i].pid, port)
  }

  lemma AllListed(apps: seq<App>, rows: seq<Row>, localPort: nat, names: map<nat, string>)
    requires AllReport(apps, rows, localPort, names)
    ensures ListsTheRows(apps, rows, localPort)
  {
    forall i, port: nat | 0 <= i < |apps|
      ensures multiset(apps[i].ports)[port] == RowsFrom(rows, localPort, apps[i].pid, port)
    {
      PortsAreTheRows(rows, localPort, apps[i].pid, port);
    }
  }

  /** `connected_apps`: every process with a qualifying row, once, with all its ports in order; busiest first; and
      together exactly as many ports as there are qualifying rows. */
  method ConnectedApps(rows: seq<Row>, localPort: nat, names: map<nat, string>) returns (apps: seq<App>)
    ensures Distinct(Pids(apps)) && forall pid: nat :: pid in Pids(apps) <==> PortsOf(rows, localPort, pid) != []
    ensures forall i | 0 <= i < |apps| :: Reports(apps[i], rows, localPort, names)
    ensures forall i, j | 0 <= i < j < |apps| :: apps[i].connections >= apps[j].connections
    ensures Sum(rows, localPort, Pids(apps)) == Qualifying(rows, localPort)
    ensures ListsTheRows(apps, rows, localPort)
  {
    var byPid := Group(rows, localPort);
    var found := Describe(rows, localPort, names, byPid);
    var key := (a: App) => -(a.connections as int);
    apps := SortBy(found, key);
    PermutedDistinct(found, apps);
    forall i | 0 <= i < |apps| ensures Reports(apps[i], rows, localPort, names) { assert apps[i] in found; }
    forall i, j | 0 <= i < j < |apps| ensures apps[i].connections >= apps[j].connections {
      assert key(apps[i]) <= key(apps[j]);
    }
    forall i | 0 <= i < |rows| && Qualifies(rows[i], localPort) ensures Pid(rows[i], localPort) in Pids(apps) {
      RowHasPort(rows, localPort, i);
    }
    Conserved(rows, localPort, Pids(apps));
    AllListed(apps, rows, localPort, names);
  }

  lemma {:induction false} NoMorePortsThanRows(rows: seq<Row>, localPort: nat, pid: nat)
    ensures |PortsOf(rows, localPort, pid)| <= |rows|
  {
    if rows != [] { NoMorePortsThanRows(rows[..|rows| - 1], localPort, pid); }
  }

  lemma CountIsTrue(app: App, ports: seq<nat>)
    requires multiset(app.ports) == multiset(ports) && |ports| < 0x1_0000_0000
    requires app.connections == |app.ports| % 0x1_0000_0000
    ensures app.connections == |ports|
  {
    SameLength(app.ports, ports);
  }

  lemma SameLength(a: seq<nat>, b: seq<nat>)
    requires multiset(a) == multiset(b)
    ensures |a| == |b|
  {
    assert |multiset(a)| == |a| && |multiset(b)| == |b|;
  }

  /** Below 2^32 rows the 32-bit counts are the true ones, so they too add up to the rows. */
  lemma {:induction false} CountsAddUp(apps: seq<App>, rows: seq<Row>, localPort: nat, names: map<nat, string>)
    requires |rows| < 0x1_0000_0000 && forall i | 0 <= i < |apps| :: Reports(apps[i], rows, localPort, names)
    ensures Total(apps) == Sum(rows, localPort, Pids(apps))
  {
    if apps != [] {
      var m := |apps| - 1;
      var front, last := apps[..m], apps[m];
      CountsAddUp(front, rows, localPort, names);
      assert Reports(last, rows, localPort, names);
      NoMorePortsThanRows(rows, localPort, last.pid);
      CountIsTrue(last, PortsOf(rows, localPort, last.pid));
      SumLast(rows, localPort, Pids(front), last.pid);
    }
  }

  lemma SumLast(rows: seq<Row>, localPort: nat, pids: seq<nat>, pid: nat)
    ensures Sum(rows, localPort, pids + [pid]) == Sum(rows, localPort, pids) + |PortsOf(rows, localPort, pid)|
  {
    assert (pids + [pid])[..|pids|] == pids;
  }

  function Total(apps: seq<App>): nat {
    if apps == [] then 0 else Total(apps[..|apps| - 1]) + apps[|apps| - 1].connections
  }
}
