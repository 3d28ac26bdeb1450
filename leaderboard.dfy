/**
 * The Arena leaderboard of `showArenaLeaderboard` in src/index.ts: one entry
 * per player folder (the "host" folder and plain files excepted) holding the
 * `arena_hype` of its Athena profile, sorted by points from highest to
 * lowest, and rendered with a right-aligned rank, a name cell of exactly 35
 * characters and right-aligned points.
 *
 * The folder listing and the profile files are inputs: each listed name
 * comes with whether it is a directory and, when its profile could be read
 * and parsed, the parsed profile.
 */
module Leaderboard {
  import opened Wrappers
  import opened Text
  import opened Json
  import Events

  /** One name under static/profiles. `profile` is `None` when profile_athena.json cannot be read or parsed. */
  datatype Account = Account(id: string, isDirectory: bool, profile: Option<Value>)

  /** A leaderboard entry; the display name is the folder name. */
  datatype Player = Player(accountId: string, name: string, points: Value)

  /** `accountId.toLowerCase() === 'host'`. */
  predicate IsHost(id: string) {
    Lower(id) == "host"
  }

  /** The accounts that get an entry: readable player folders other than the host's. */
  predicate Listed(a: Account) {
    a.isDirectory && !IsHost(a.id) && a.profile.Some?
  }

  /** `profile?.stats?.attributes?.arena_hype || 0`. */
  function ArenaPoints(profile: Value): (v: Value)
    ensures Truthy(v) || v == Num(0)
  {
    Or(Events.Chain(Events.Chain(Events.Chain(profile, "stats"), "attributes"), "arena_hype"), Num(0))
  }

  /** The entry of a listed account. */
  function PlayerOf(a: Account): Player
    requires a.profile.Some?
  {
    Player(a.id, a.id, ArenaPoints(a.profile.value))
  }

  /** The entries the scan pushes, in listing order. */
  function Collected(accounts: seq<Account>): (r: seq<Player>)
    ensures |r| <= |accounts|
    ensures forall p :: p in r ==> exists a :: a in accounts && Listed(a) && p == PlayerOf(a)
    ensures forall a :: a in accounts && Listed(a) ==> PlayerOf(a) in r
    ensures forall p :: p in r ==> !IsHost(p.accountId)
    decreases |accounts|
  {
    if accounts == [] then []
    else
      var init := accounts[..|accounts| - 1];
      var last := accounts[|accounts| - 1];
      var rest := Collected(init);
      assert forall a :: a in accounts <==> a in init || a == last by {
        assert accounts == init + [last];
      }
      if Listed(last) then rest + [PlayerOf(last)] else rest
  }

  /** The scan of the folder listing, pushing one entry per listed account. */
  method Collect(accounts: seq<Account>) returns (board: seq<Player>)
    ensures board == Collected(accounts)
  {
    board := [];
    for i := 0 to |accounts|
      invariant board == Collected(accounts[..i])
    {
      assert accounts[..i + 1][..i] == accounts[..i];
      if Listed(accounts[i]) {
        board := board + [PlayerOf(accounts[i])];
      }
    }
    assert accounts[..|accounts|] == accounts;
  }

  /**
   * The number the comparator `b.points - a.points` sees. Points are the
   * stored `arena_hype`, a number; any other value sorts as 0.
   */
  function Score(p: Player): int {
    if p.points.Num? then p.points.n else 0
  }

  /** Placing an entry before the first entry that does not have more points. */
  function Insert(p: Player, sorted: seq<Player>): (r: seq<Player>)
    ensures multiset(r) == multiset(sorted) + multiset{p}
    decreases |sorted|
  {
    if sorted == [] || Score(sorted[0]) <= Score(p) then [p] + sorted
    else
      assert sorted == [sorted[0]] + sorted[1..];
      [sorted[0]] + Insert(p, sorted[1..])
  }

  /**
   * `leaderboard.sort((a, b) => b.points - a.points)` as an insertion sort.
   * `Array.prototype.sort` is stable, and so is this: `SortStable` shows that
   * entries with equal points keep their order.
   */
  function SortByPoints(board: seq<Player>): (r: seq<Player>)
    decreases |board|
  {
    if board == [] then [] else Insert(board[0], SortByPoints(board[1..]))
  }

  /** Highest points first. */
  predicate Descending(board: seq<Player>) {
    forall i, j :: 0 <= i < j < |board| ==> Score(board[i]) >= Score(board[j])
  }

  /** An entry with at least the points of a descending list's head can go in front of it. */
  lemma DescendingCons(p: Player, sorted: seq<Player>)
    requires Descending(sorted)
    requires sorted == [] || Score(sorted[0]) <= Score(p)
    ensures Descending([p] + sorted)
  {
    var r := [p] + sorted;
    forall i, j | 0 <= i < j < |r| ensures Score(r[i]) >= Score(r[j]) {
      assert r[j] == sorted[j - 1];
      if i == 0 {
        assert Score(sorted[0]) >= Score(sorted[j - 1]);
      } else {
        assert r[i] == sorted[i - 1];
      }
    }
  }

  /** Inserting into a descending list keeps it descending. */
  lemma {:induction false} InsertDescending(p: Player, sorted: seq<Player>)
    requires Descending(sorted)
    ensures Descending(Insert(p, sorted))
    ensures |Insert(p, sorted)| > 0 && Score(Insert(p, sorted)[0]) == if sorted == [] || Score(sorted[0]) <= Score(p) then Score(p) else Score(sorted[0])
    decreases |sorted|
  {
    if sorted == [] || Score(sorted[0]) <= Score(p) {
      DescendingCons(p, sorted);
    } else {
      var tail := sorted[1..];
      assert Descending(tail) by {
        assert forall i :: 0 <= i < |tail| ==> tail[i] == sorted[i + 1];
      }
      InsertDescending(p, tail);
      var rt := Insert(p, tail);
      assert Score(rt[0]) <= Score(sorted[0]) by {
        if tail != [] && Score(tail[0]) > Score(p) {
          assert tail[0] == sorted[1];
        }
      }
      DescendingCons(sorted[0], rt);
      assert Insert(p, sorted) == [sorted[0]] + rt;
    }
  }

  /** The sort orders the entries by points, highest first. */
  lemma {:induction false} SortDescending(board: seq<Player>)
    ensures Descending(SortByPoints(board))
    decreases |board|
  {
    if board != [] {
      SortDescending(board[1..]);
      InsertDescending(board[0], SortByPoints(board[1..]));
    }
  }

  /** The sort keeps every entry, as often as it occurs. */
  lemma {:induction false} SortPermutes(board: seq<Player>)
    ensures multiset(SortByPoints(board)) == multiset(board)
    decreases |board|
  {
    if board != [] {
      SortPermutes(board[1..]);
      assert board == [board[0]] + board[1..];
    }
  }

  /** The entries with `v` points, in their order. */
  function WithScore(board: seq<Player>, v: int): seq<Player>
    decreases |board|
  {
    if board == [] then []
    else (if Score(board[0]) == v then [board[0]] else []) + WithScore(board[1..], v)
  }

  /** Taking the entries with `v` points works entry by entry. */
  lemma WithScoreCons(p: Player, rest: seq<Player>, v: int)
    ensures WithScore([p] + rest, v) == WithScore([p], v) + WithScore(rest, v)
  {
    var r := [p] + rest;
    assert r[0] == p && r[1..] == rest;
    assert [p][1..] == [];
  }

  /** A single entry is kept exactly when it has `v` points. */
  lemma WithScoreOne(p: Player, v: int)
    ensures WithScore([p], v) == if Score(p) == v then [p] else []
  {
    assert [p][0] == p && [p][1..] == [];
  }

  /** An inserted entry goes before the entries with its own points, after every entry with more. */
  lemma {:induction false} InsertStable(p: Player, sorted: seq<Player>, v: int)
    ensures WithScore(Insert(p, sorted), v) == WithScore([p], v) + WithScore(sorted, v)
    decreases |sorted|
  {
    if sorted == [] || Score(sorted[0]) <= Score(p) {
      WithScoreCons(p, sorted, v);
    } else {
      var s0, tail := sorted[0], sorted[1..];
      assert sorted == [s0] + tail;
      assert Insert(p, sorted) == [s0] + Insert(p, tail);
      InsertStable(p, tail, v);
      PassStable(p, s0, tail, Insert(p, tail), v);
    }
  }

  /** Passing an entry with more points keeps the stable order: that entry and the inserted one never both have `v` points. */
  lemma PassStable(p: Player, s0: Player, tail: seq<Player>, x: seq<Player>, v: int)
    requires Score(s0) > Score(p)
    requires WithScore(x, v) == WithScore([p], v) + WithScore(tail, v)
    ensures WithScore([s0] + x, v) == WithScore([p], v) + WithScore([s0] + tail, v)
  {
    WithScoreCons(s0, x, v);
    WithScoreCons(s0, tail, v);
    WithScoreOne(p, v);
    WithScoreOne(s0, v);
  }

  /** The sort is stable: for every score, the entries with that score keep their input order. */
  lemma {:induction false} SortStable(board: seq<Player>, v: int)
    ensures WithScore(SortByPoints(board), v) == WithScore(board, v)
    decreases |board|
  {
    if board != [] {
      SortStable(board[1..], v);
      InsertStable(board[0], SortByPoints(board[1..]), v);
    }
  }

  // ---------------------------------------------------------------------
  // the table rows

  /** How wide the name column is. */
  const NameWidth := 35

  /** `player.name || 'Unknown'`, cut to 32 characters and "..." when longer than 35, padded with spaces when shorter. */
  function NameCell(name: string): (cell: string)
    ensures |cell| == NameWidth
  {
    var shown := if name == "" then "Unknown" else name;
    if |shown| > NameWidth then shown[..32] + "..."
    else shown + Repeat(' ', NameWidth - |shown|)
  }

  /** A name of at most 35 characters is shown whole and then spaces; a longer one is its first 32 characters and "...". */
  lemma NameCellShape(name: string)
    requires name != ""
    ensures |name| <= NameWidth ==> (NameCell(name)[..|name|] == name
      && forall i :: |name| <= i < NameWidth ==> NameCell(name)[i] == ' ')
    ensures |name| > NameWidth ==> NameCell(name) == name[..32] + "..."
  {
    if |name| <= NameWidth {
      assert NameCell(name) == name + Repeat(' ', NameWidth - |name|);
      assert (name + Repeat(' ', NameWidth - |name|))[..|name|] == name;
    }
  }

  /** An empty name shows as "Unknown". */
  lemma UnknownName()
    ensures NameCell("")[..7] == "Unknown"
  {
    assert NameCell("") == "Unknown" + Repeat(' ', NameWidth - 7);
  }

  /** `String(index + 1).padStart(4, ' ')`. */
  function RankCell(index: nat): (cell: string)
    ensures |cell| >= 4 && |cell| >= |NatText(index + 1)|
    ensures cell[|cell| - |NatText(index + 1)|..] == NatText(index + 1)
  {
    PadStart(NatText(index + 1), 4, ' ')
  }

  /** `String(player.points).padStart(12, ' ')`. */
  function PointsCell(points: Value): (cell: string)
    ensures |cell| >= 12 && |cell| >= |ToText(points)|
    ensures cell[|cell| - |ToText(points)|..] == ToText(points)
  {
    PadStart(ToText(points), 12, ' ')
  }

  /** Gold, silver and bronze for the first three ranks. */
  function RankColor(index: nat): string {
    if index == 0 then "\U{1b}[93m"
    else if index == 1 then "\U{1b}[37m"
    else if index == 2 then "\U{1b}[33m"
    else "\U{1b}[0m"
  }

  /** The printed row of the entry at `index`. */
  function RowLine(index: nat, p: Player): (line: string)
    ensures StartsWith(line, "  " + RankColor(index) + RankCell(index) + ".")
  {
    var head := "  " + RankColor(index) + RankCell(index) + ".";
    var line := head + "\U{1b}[0m \U{1b}[96m" + NameCell(p.name) + "\U{1b}[0m \U{1b}[32m" + PointsCell(p.points) + "\U{1b}[0m";
    assert line[..|head|] == head;
    line
  }

  /** The line printed when no entry was collected. */
  const NoPlayers := "\U{1b}[33m  No player profiles found.\U{1b}[0m\n"

  /**
   * The scan, the sort and the row loop. An empty board prints the
   * no-players line; otherwise there is one row per entry, in sorted order.
   */
  method ShowLeaderboard(accounts: seq<Account>) returns (board: seq<Player>, rows: seq<string>)
    ensures board == SortByPoints(Collected(accounts))
    ensures board == [] ==> rows == [NoPlayers]
    ensures board != [] ==> |rows| == |board| && forall i :: 0 <= i < |board| ==> rows[i] == RowLine(i, board[i])
  {
    var collected := Collect(accounts);
    board := SortByPoints(collected);
    if board == [] {
      rows := [NoPlayers];
    } else {
      rows := RenderRows(board);
    }
  }

  /** The rows of all the entries, each rendered at its own index. */
  function Rendered(board: seq<Player>): seq<string> {
    seq(|board|, i requires 0 <= i < |board| => RowLine(i, board[i]))
  }

  /** `leaderboard.forEach((player, index) => ...)`: one row per entry. */
  method RenderRows(board: seq<Player>) returns (rows: seq<string>)
    ensures |rows| == |board|
    ensures forall i :: 0 <= i < |board| ==> rows[i] == RowLine(i, board[i])
  {
    rows := [];
    ghost var all := Rendered(board);
    for i := 0 to |board|
      invariant rows == all[..i]
    {
      PrefixSnoc(all, i);
      rows := rows + [RowLine(i, board[i])];
    }
    assert all[..|board|] == all;
  }

  /** The leaderboard lists exactly the listed accounts, highest points first, with its host and plain files left out. */
  lemma LeaderboardOrder(accounts: seq<Account>)
    ensures var board := SortByPoints(Collected(accounts));
      Descending(board)
      && multiset(board) == multiset(Collected(accounts))
      && (forall a :: a in accounts && Listed(a) ==> PlayerOf(a) in board)
      && (forall p :: p in board ==> !IsHost(p.accountId) && exists a :: a in accounts && Listed(a) && p == PlayerOf(a))
  {
    var c := Collected(accounts);
    SortDescending(c);
    SortPermutes(c);
    assert forall p :: p in SortByPoints(c) <==> p in c by {
      forall p ensures p in SortByPoints(c) <==> p in c {
        assert p in multiset(SortByPoints(c)) <==> p in multiset(c);
      }
    }
  }
}
