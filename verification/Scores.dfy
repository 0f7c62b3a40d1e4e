/** A chat's score over its finished games. */
module Scores {

  /** A widget's `outcome.winner`: missing, JSON null, or a value with its text. */
  datatype Winner = Absent | Null | Value(text: string)

  datatype Widget = Widget(id: string, channel: string, status: string, winner: Winner)

  /** Who holds a seat: one human or one agent. */
  datatype Player = Human(id: int) | Agent(name: string)

  datatype Seat = Seat(widget: string, seat: string, player: Player)

  datatype Database = Database(widgets: seq<Widget>, seats: seq<Seat>)

  /** The seats' primary key: a widget has each seat once. */
  predicate SeatsKeyed(seats: seq<Seat>) {
    forall i, j :: 0 <= i < j < |seats| ==> seats[i].widget != seats[j].widget || seats[i].seat != seats[j].seat
  }

  datatype Score = Score(wins: map<Player, nat>, draws: nat, finished: nat)

  // ----- what the two statements answer -----

  function Finished(widgets: seq<Widget>, channel: string): seq<Widget> {
    if widgets == [] then []
    else
      (if widgets[0].channel == channel && widgets[0].status == "finished" then [widgets[0]] else [])
      + Finished(widgets[1..], channel)
  }

  /** A chat's finished games are its widgets with that status. */
  lemma {:induction false} FinishedIs(widgets: seq<Widget>, channel: string, game: Widget)
    ensures game in Finished(widgets, channel) <==>
      game in widgets && game.channel == channel && game.status == "finished"
  {
    if widgets != [] {
      FinishedIs(widgets[1..], channel, game);
      assert widgets == [widgets[0]] + widgets[1..];
    }
  }

  function Drawn(games: seq<Widget>): seq<Widget> {
    if games == [] then [] else (if games[0].winner.Null? then [games[0]] else []) + Drawn(games[1..])
  }

  predicate Wins(seat: Seat, game: Widget) {
    seat.widget == game.id && game.winner == Value(seat.seat)
  }

  /** Who holds the winner's seat, once for each such row. */
  function Won(game: Widget, seats: seq<Seat>): seq<Player> {
    if seats == [] then []
    else (if Wins(seats[0], game) then [seats[0].player] else []) + Won(game, seats[1..])
  }

  function Winners(games: seq<Widget>, seats: seq<Seat>): seq<Player> {
    if games == [] then [] else Won(games[0], seats) + Winners(games[1..], seats)
  }

  predicate SatIn(seat: Seat, games: seq<Widget>) {
    exists i :: 0 <= i < |games| && seat.widget == games[i].id
  }

  function Seated(games: seq<Widget>, seats: seq<Seat>): set<Player> {
    set i | 0 <= i < |seats| && SatIn(seats[i], games) :: seats[i].player
  }

  /** Each player's number of winning rows. */
  function WinsOf(players: set<Player>, winners: multiset<Player>): map<Player, nat> {
    map p | p in players :: winners[p]
  }

  function ScoreOf(db: Database, channel: string): Score {
    var games := Finished(db.widgets, channel);
    var winners := multiset(Winners(games, db.seats));
    Score(WinsOf(Seated(games, db.seats), winners), |Drawn(games)|, |games|)
  }

  /** One row for each chat with a finished game. */
  datatype CountRow = CountRow(channel: string, finished: nat, draws: nat)

  /** One row for each player seated in a chat's finished games. */
  datatype WinRow = WinRow(channel: string, player: Player, wins: nat)

  predicate Counts(db: Database, channels: set<string>, rows: seq<CountRow>) {
    && (forall i :: 0 <= i < |rows| ==>
        && rows[i].channel in channels
        && Finished(db.widgets, rows[i].channel) != []
        && rows[i].finished == |Finished(db.widgets, rows[i].channel)|
        && rows[i].draws == |Drawn(Finished(db.widgets, rows[i].channel))|)
    && (forall c | c in channels ::
        Finished(db.widgets, c) != [] ==> exists i :: 0 <= i < |rows| && rows[i].channel == c)
  }

  predicate GroupsWins(db: Database, channels: set<string>, rows: seq<WinRow>) {
    && (forall i :: 0 <= i < |rows| ==>
        && rows[i].channel in channels
        && var games := Finished(db.widgets, rows[i].channel);
        && rows[i].player in Seated(games, db.seats)
        && rows[i].wins == multiset(Winners(games, db.seats))[rows[i].player])
    && (forall c, p | c in channels && p in Seated(Finished(db.widgets, c), db.seats) ::
        exists i :: 0 <= i < |rows| && rows[i].channel == c && rows[i].player == p)
  }

  /** The wins that the first rows give one chat. */
  function WinsIn(rows: seq<WinRow>, channel: string): map<Player, nat> {
    if rows == [] then map[]
    else
      var n := |rows| - 1;
      var before := WinsIn(rows[..n], channel);
      if rows[n].channel == channel then before[rows[n].player := rows[n].wins] else before
  }

  lemma {:induction false} WinsInRows(rows: seq<WinRow>, channel: string)
    ensures forall p :: p in WinsIn(rows, channel) <==>
      exists i :: 0 <= i < |rows| && rows[i].channel == channel && rows[i].player == p
    ensures forall p | p in WinsIn(rows, channel) ::
      exists i :: 0 <= i < |rows| && rows[i].channel == channel && rows[i].player == p
        && rows[i].wins == WinsIn(rows, channel)[p]
  {
    if rows != [] {
      WinsInRows(rows[..|rows| - 1], channel);
    }
  }

  lemma PlayerIsGrouped(db: Database, channels: set<string>, rows: seq<WinRow>, channel: string, p: Player)
    requires GroupsWins(db, channels, rows) && channel in channels
    ensures var wins, score := WinsIn(rows, channel), ScoreOf(db, channel);
      (p in wins <==> p in score.wins) && (p in wins ==> wins[p] == score.wins[p])
  {
    WinsInRows(rows, channel);
    if p in WinsIn(rows, channel) {
      var i :| 0 <= i < |rows| && rows[i].channel == channel && rows[i].player == p
        && rows[i].wins == WinsIn(rows, channel)[p];
      assert p in Seated(Finished(db.widgets, rows[i].channel), db.seats);
    }
  }

  lemma WinsAreGrouped(db: Database, channels: set<string>, rows: seq<WinRow>, channel: string)
    requires GroupsWins(db, channels, rows) && channel in channels
    ensures WinsIn(rows, channel) == ScoreOf(db, channel).wins
  {
    forall p {
      PlayerIsGrouped(db, channels, rows, channel, p);
    }
    SameMap(WinsIn(rows, channel), ScoreOf(db, channel).wins);
  }

  lemma SameMap(a: map<Player, nat>, b: map<Player, nat>)
    requires forall p :: (p in a <==> p in b) && (p in a ==> a[p] == b[p])
    ensures a == b
  {
  }

  /** The scores before any win is filled in. */
  function Started(rows: seq<CountRow>): map<string, Score> {
    if rows == [] then map[]
    else
      var n := |rows| - 1;
      Started(rows[..n])[rows[n].channel := Score(map[], rows[n].draws, rows[n].finished)]
  }

  lemma {:induction false} StartedRows(rows: seq<CountRow>)
    ensures forall c | c in Started(rows) ::
      exists i :: 0 <= i < |rows| && rows[i].channel == c && Started(rows)[c] == Score(map[], rows[i].draws, rows[i].finished)
    ensures forall i :: 0 <= i < |rows| ==> rows[i].channel in Started(rows)
  {
    if rows != [] {
      StartedRows(rows[..|rows| - 1]);
    }
  }

  lemma StartedCounts(db: Database, channels: set<string>, rows: seq<CountRow>)
    requires Counts(db, channels, rows)
    ensures forall c :: c in Started(rows) <==> c in channels && Finished(db.widgets, c) != []
    ensures forall c | c in Started(rows) ::
      Started(rows)[c] == Score(map[], |Drawn(Finished(db.widgets, c))|, |Finished(db.widgets, c)|)
  {
    StartedRows(rows);
  }

  function Filled(started: map<string, Score>, rows: seq<WinRow>): map<string, Score> {
    map c | c in started :: started[c].(wins := WinsIn(rows, c))
  }

  lemma FilledStep(started: map<string, Score>, rows: seq<WinRow>, i: nat)
    requires i < |rows| && rows[i].channel in started
    ensures
      var row, before := rows[i], Filled(started, rows[..i]);
      var score := before[row.channel];
      Filled(started, rows[..i + 1]) == before[row.channel := score.(wins := score.wins[row.player := row.wins])]
  {
    assert rows[..i + 1][..i] == rows[..i];
  }

  lemma FilledIsScore(db: Database, channels: set<string>, counts: seq<CountRow>, wins: seq<WinRow>)
    requires Counts(db, channels, counts) && GroupsWins(db, channels, wins)
    ensures var scores := Filled(Started(counts), wins);
      && (forall c :: c in scores <==> c in channels && Finished(db.widgets, c) != [])
      && (forall c | c in scores :: scores[c] == ScoreOf(db, c))
  {
    StartedCounts(db, channels, counts);
    forall c | c in Started(counts)
      ensures Filled(Started(counts), wins)[c] == ScoreOf(db, c)
    {
      WinsAreGrouped(db, channels, wins, c);
    }
  }

  /** The second loop: each row's wins go under its chat and player. */
  method FillWins(started: map<string, Score>, wins: seq<WinRow>) returns (scores: map<string, Score>)
    requires forall c | c in started :: started[c].wins == map[]
    requires forall i :: 0 <= i < |wins| ==> wins[i].channel in started
    ensures scores == Filled(started, wins)
  {
    scores := started;
    for i := 0 to |wins|
      invariant scores == Filled(started, wins[..i])
    {
      FilledStep(started, wins, i);
      var row := wins[i];
      var score := scores[row.channel];
      scores := scores[row.channel := score.(wins := score.wins[row.player := row.wins])];
    }
    assert wins[..|wins|] == wins;
  }

  lemma RowsStarted(db: Database, channels: set<string>, counts: seq<CountRow>, wins: seq<WinRow>)
    requires Counts(db, channels, counts) && GroupsWins(db, channels, wins)
    ensures forall c | c in Started(counts) :: Started(counts)[c].wins == map[]
    ensures forall i :: 0 <= i < |wins| ==> wins[i].channel in Started(counts)
  {
    StartedCounts(db, channels, counts);
  }

  /** The rows of both statements, in any order, make the scores: no row lacks its chat. */
  method MmWidgetScores(db: Database, channels: set<string>, counts: seq<CountRow>, wins: seq<WinRow>)
      returns (scores: map<string, Score>)
    requires Counts(db, channels, counts) && GroupsWins(db, channels, wins)
    ensures forall c :: c in scores <==> c in channels && Finished(db.widgets, c) != []
    ensures forall c | c in scores :: scores[c] == ScoreOf(db, c)
  {
    if channels == {} {
      return map[];
    }
    RowsStarted(db, channels, counts, wins);
    scores := FillWins(Started(counts), wins);
    FilledIsScore(db, channels, counts, wins);
  }

  // ----- conservation -----

  ghost function Total(wins: map<Player, nat>): nat {
    if wins == map[] then 0
    else
      var p :| p in wins;
      wins[p] + Total(wins - {p})
  }

  lemma {:induction false} TotalWithout(wins: map<Player, nat>, p: Player)
    requires p in wins
    ensures Total(wins) == wins[p] + Total(wins - {p})
    decreases |wins|
  {
    var q :| q in wins && Total(wins) == wins[q] + Total(wins - {q});
    if p != q {
      TotalWithout(wins - {q}, p);
      TotalWithout(wins - {p}, q);
      assert wins - {q} - {p} == wins - {p} - {q};
    }
  }

  /** Counting by player counts every winner once. */
  lemma {:induction false} TotalOfMultiset(players: set<Player>, winners: multiset<Player>)
    requires forall p :: p in winners ==> p in players
    ensures Total(WinsOf(players, winners)) == |winners|
    decreases |players|
  {
    var wins := WinsOf(players, winners);
    if players == {} {
      assert winners == multiset{};
      assert wins == map[];
    } else {
      var p :| p in players;
      var fewer := winners[p := 0];
      assert winners == fewer + multiset{}[p := winners[p]];
      TotalOfMultiset(players - {p}, fewer);
      TotalWithout(wins, p);
      assert wins - {p} == WinsOf(players - {p}, fewer);
    }
  }

  lemma {:induction false} WonAreSeated(game: Widget, seats: seq<Seat>)
    ensures forall p | p in Won(game, seats) ::
      exists i :: 0 <= i < |seats| && seats[i].widget == game.id && seats[i].player == p
  {
    if seats != [] {
      WonAreSeated(game, seats[1..]);
      forall p | p in Won(game, seats)
        ensures exists i :: 0 <= i < |seats| && seats[i].widget == game.id && seats[i].player == p
      {
        if p in Won(game, seats[1..]) {
          var i :| 0 <= i < |seats[1..]| && seats[1..][i].widget == game.id && seats[1..][i].player == p;
          assert seats[i + 1] == seats[1..][i];
        } else {
          assert seats[0].widget == game.id && seats[0].player == p;
        }
      }
    }
  }

  lemma {:induction false} WinnersAreSeated(games: seq<Widget>, seats: seq<Seat>)
    ensures forall p | p in Winners(games, seats) :: p in Seated(games, seats)
  {
    if games != [] {
      WonAreSeated(games[0], seats);
      WinnersAreSeated(games[1..], seats);
      forall p | p in Winners(games, seats)
        ensures p in Seated(games, seats)
      {
        if p in Won(games[0], seats) {
          var i :| 0 <= i < |seats| && seats[i].widget == games[0].id && seats[i].player == p;
          assert SatIn(seats[i], games);
        } else {
          assert p in Winners(games[1..], seats);
          SeatedLater(games, seats, p);
        }
      }
    }
  }

  lemma SeatedLater(games: seq<Widget>, seats: seq<Seat>, p: Player)
    requires games != [] && p in Seated(games[1..], seats)
    ensures p in Seated(games, seats)
  {
    var i :| 0 <= i < |seats| && SatIn(seats[i], games[1..]) && seats[i].player == p;
    var k :| 0 <= k < |games[1..]| && seats[i].widget == games[1..][k].id;
    assert games[k + 1] == games[1..][k];
    assert SatIn(seats[i], games);
  }

  /** The winner's seat row exists. */
  predicate WinnerSeated(game: Widget, seats: seq<Seat>) {
    exists i :: 0 <= i < |seats| && Wins(seats[i], game)
  }

  /** A game has at most one winning seat row: one exactly when the winner's seat row exists. */
  lemma {:induction false} WonOnce(game: Widget, seats: seq<Seat>)
    requires SeatsKeyed(seats)
    ensures |Won(game, seats)| == if WinnerSeated(game, seats) then 1 else 0
  {
    if seats != [] {
      var rest := seats[1..];
      assert forall i :: 0 <= i < |rest| ==> rest[i] == seats[i + 1];
      WonOnce(game, rest);
      if Wins(seats[0], game) {
        assert !WinnerSeated(game, rest);
      } else if WinnerSeated(game, seats) {
        var i :| 0 <= i < |seats| && Wins(seats[i], game);
        assert Wins(rest[i - 1], game);
      }
    }
  }

  /** A finished game that counts for nobody: no winner recorded, or one whose seat row is gone. */
  predicate Uncounted(game: Widget, seats: seq<Seat>) {
    !game.winner.Null? && !WinnerSeated(game, seats)
  }

  function UncountedGames(games: seq<Widget>, seats: seq<Seat>): seq<Widget> {
    if games == [] then []
    else (if Uncounted(games[0], seats) then [games[0]] else []) + UncountedGames(games[1..], seats)
  }

  lemma {:induction false} GamesAddUp(games: seq<Widget>, seats: seq<Seat>)
    requires SeatsKeyed(seats)
    ensures |Drawn(games)| + |Winners(games, seats)| + |UncountedGames(games, seats)| == |games|
  {
    if games != [] {
      GamesAddUp(games[1..], seats);
      WonOnce(games[0], seats);
    }
  }

  lemma {:induction false} NoneUncounted(games: seq<Widget>, seats: seq<Seat>)
    ensures UncountedGames(games, seats) == [] <==>
      forall i :: 0 <= i < |games| ==> games[i].winner.Null? || WinnerSeated(games[i], seats)
  {
    if games != [] {
      NoneUncounted(games[1..], seats);
      assert forall i :: 1 <= i < |games| ==> games[i] == games[1..][i - 1];
      if UncountedGames(games, seats) != [] && !Uncounted(games[0], seats) {
        var i :| 0 <= i < |games[1..]| && Uncounted(games[1..][i], seats);
        assert Uncounted(games[i + 1], seats);
      }
    }
  }

  /**
   In every chat, draws and wins together never exceed the finished games, and make them up exactly when each
   finished game has a null winner or a winner whose seat row still exists.
   */
  lemma ScoresConserveGames(db: Database, channel: string)
    requires SeatsKeyed(db.seats)
    ensures
      var score, games := ScoreOf(db, channel), Finished(db.widgets, channel);
      && score.draws + Total(score.wins) + |UncountedGames(games, db.seats)| == score.finished
      && (score.draws + Total(score.wins) == score.finished <==>
          forall i :: 0 <= i < |games| ==> games[i].winner.Null? || WinnerSeated(games[i], db.seats))
  {
    var games := Finished(db.widgets, channel);
    var winners := Winners(games, db.seats);
    WinnersAreSeated(games, db.seats);
    TotalOfMultiset(Seated(games, db.seats), multiset(winners));
    GamesAddUp(games, db.seats);
    NoneUncounted(games, db.seats);
  }

  // ----- deleting an account's seats -----

  function SeatsWithout(seats: seq<Seat>, player: Player): seq<Seat> {
    if seats == [] then []
    else (if seats[0].player == player then [] else [seats[0]]) + SeatsWithout(seats[1..], player)
  }

  /** How often a player is among the winners. */
  function Tally(winners: seq<Player>, p: Player): nat {
    if winners == [] then 0 else (if winners[0] == p then 1 else 0) + Tally(winners[1..], p)
  }

  lemma {:induction false} TallyAppend(a: seq<Player>, b: seq<Player>, p: Player)
    ensures Tally(a + b, p) == Tally(a, p) + Tally(b, p)
  {
    if a == [] {
      assert a + b == b;
    } else {
      assert (a + b)[1..] == a[1..] + b;
      TallyAppend(a[1..], b, p);
    }
  }

  lemma {:induction false} TallyIsCount(winners: seq<Player>, p: Player)
    ensures Tally(winners, p) == multiset(winners)[p]
  {
    if winners != [] {
      TallyIsCount(winners[1..], p);
      assert winners == [winners[0]] + winners[1..];
    }
  }

  lemma WonFirst(game: Widget, seat: Seat, rest: seq<Seat>, p: Player)
    ensures Tally(Won(game, [seat] + rest), p)
         == (if Wins(seat, game) && seat.player == p then 1 else 0) + Tally(Won(game, rest), p)
  {
    assert ([seat] + rest)[1..] == rest;
    if Wins(seat, game) {
      TallyAppend([seat.player], Won(game, rest), p);
      assert [seat.player][1..] == [];
    } else {
      assert [] + Won(game, rest) == Won(game, rest);
    }
  }

  lemma {:induction false} WonWithout(game: Widget, seats: seq<Seat>, player: Player, p: Player)
    ensures Tally(Won(game, SeatsWithout(seats, player)), p) == if p == player then 0 else Tally(Won(game, seats), p)
  {
    if seats != [] {
      WonWithout(game, seats[1..], player, p);
      WonFirst(game, seats[0], seats[1..], p);
      assert seats == [seats[0]] + seats[1..];
      var rest := SeatsWithout(seats[1..], player);
      if seats[0].player == player {
        assert [] + rest == rest;
      } else {
        WonFirst(game, seats[0], rest, p);
      }
    }
  }

  lemma {:induction false} TallyWithout(games: seq<Widget>, seats: seq<Seat>, player: Player, p: Player)
    ensures Tally(Winners(games, SeatsWithout(seats, player)), p)
         == if p == player then 0 else Tally(Winners(games, seats), p)
  {
    if games != [] {
      WonWithout(games[0], seats, player, p);
      TallyWithout(games[1..], seats, player, p);
      TallyAppend(Won(games[0], seats), Winners(games[1..], seats), p);
      TallyAppend(Won(games[0], SeatsWithout(seats, player)), Winners(games[1..], SeatsWithout(seats, player)), p);
    }
  }

  lemma WinnersWithout(games: seq<Widget>, seats: seq<Seat>, player: Player)
    ensures multiset(Winners(games, SeatsWithout(seats, player))) == multiset(Winners(games, seats))[player := 0]
  {
    var a, b := Winners(games, SeatsWithout(seats, player)), Winners(games, seats);
    forall p
      ensures multiset(a)[p] == multiset(b)[player := 0][p]
    {
      TallyWithout(games, seats, player, p);
      TallyIsCount(a, p);
      TallyIsCount(b, p);
    }
  }

  lemma {:induction false} SeatsWithoutRows(seats: seq<Seat>, player: Player)
    ensures forall s :: s in SeatsWithout(seats, player) <==> s in seats && s.player != player
  {
    if seats != [] {
      SeatsWithoutRows(seats[1..], player);
    }
  }

  lemma SeatedRows(games: seq<Widget>, seats: seq<Seat>, p: Player)
    ensures p in Seated(games, seats) <==> exists s :: s in seats && SatIn(s, games) && s.player == p
  {
    if s :| s in seats && SatIn(s, games) && s.player == p {
      var i :| 0 <= i < |seats| && seats[i] == s;
    }
  }

  lemma SeatedWithout(games: seq<Widget>, seats: seq<Seat>, player: Player)
    ensures Seated(games, SeatsWithout(seats, player)) == Seated(games, seats) - {player}
  {
    SeatsWithoutRows(seats, player);
    forall p
      ensures p in Seated(games, SeatsWithout(seats, player)) <==> p in Seated(games, seats) - {player}
    {
      SeatedRows(games, seats, p);
      SeatedRows(games, SeatsWithout(seats, player), p);
    }
  }

  lemma WinsWithout(players: set<Player>, winners: multiset<Player>, player: Player)
    ensures WinsOf(players - {player}, winners[player := 0]) == WinsOf(players, winners) - {player}
  {
  }

  /** Deleting an account's seats takes its wins and nothing else from any chat's score. */
  lemma DeletedSeatsTakeTheirWins(db: Database, channel: string, player: Player)
    ensures
      var after := ScoreOf(db.(seats := SeatsWithout(db.seats, player)), channel);
      && after.wins == ScoreOf(db, channel).wins - {player}
      && after.draws == ScoreOf(db, channel).draws && after.finished == ScoreOf(db, channel).finished
  {
    var games := Finished(db.widgets, channel);
    WinnersWithout(games, db.seats, player);
    SeatedWithout(games, db.seats, player);
    WinsWithout(Seated(games, db.seats), multiset(Winners(games, db.seats)), player);
  }
}
