/**
 Agent signup: sessions are minted, opened and spent, and each spent one brings an agent under the id
 that was promised. Every operation here is one transaction.
 */
module Signup {
  import opened Options
  import opened Text
  import opened ReefNames

  /** `agentId` is reserved at mint; `owner` is the signup token an agentic session carries. */
  datatype Session = Session(
    used: bool, expires: int, answer: string, org: Option<string>, human: Option<int>, owner: Option<string>,
    agentId: Option<string>, nickname: string, reef: Option<Reef>, rebind: Option<string>)

  datatype Reef = Reef(host: string, name: string)

  datatype Agent = Agent(nickname: string, org: Option<string>, operator: Option<int>, reef: Option<Reef>, keys: nat)

  datatype Db = Db(sessions: map<string, Session>, agents: map<string, Agent>, orgs: set<string>)

  // ----- reserved ids -----

  /** The unique index: some session holds this id. */
  predicate Reserved(db: Db, id: string) {
    exists t :: t in db.sessions && db.sessions[t].agentId == Some(id)
  }

  /** `is_agent_id_taken`: held by an agent or by a session still on file. */
  predicate Taken(db: Db, id: string) {
    id in db.agents || Reserved(db, id)
  }

  /** No two sessions reserve one id, and no unused session reserves an existing agent's. */
  ghost predicate Sound(db: Db) {
    && (forall s, t | s in db.sessions && t in db.sessions && s != t ::
          db.sessions[s].agentId.Some? ==> db.sessions[s].agentId != db.sessions[t].agentId)
    && (forall t | t in db.sessions && !db.sessions[t].used ::
          db.sessions[t].agentId.Some? ==> db.sessions[t].agentId.value !in db.agents)
  }

  datatype Draw = Draw(id: string, nickname: string)

  /** The digit a draw appends: 1 to 9. */
  function Digit(d: nat): char
    requires 1 <= d <= 9
  {
    DigitChar(d)
  }

  /** The base of the n-th candidate: every third rejected candidate becomes the base of the next ones. */
  function Base(nickname: string, digits: seq<nat>, n: nat): string
    requires n <= |digits| && forall i :: 0 <= i < |digits| ==> 1 <= digits[i] <= 9
    decreases n, 0
  {
    if n == 0 then nickname
    else if n % 3 == 0 then Candidate(nickname, digits, n - 1)
    else Base(nickname, digits, n - 1)
  }

  /** The id tried after `n` were rejected: the nickname, then a base and a digit drawn for it. */
  function Candidate(nickname: string, digits: seq<nat>, n: nat): string
    requires n <= |digits| && forall i :: 0 <= i < |digits| ==> 1 <= digits[i] <= 9
    decreases n, 1
  {
    if n == 0 then nickname else Base(nickname, digits, n) + [Digit(digits[n - 1])]
  }

  /** A candidate is the nickname and digits, one more for every three rejected. */
  lemma {:induction false} CandidateGrows(nickname: string, digits: seq<nat>, n: nat)
    requires n <= |digits| && forall i :: 0 <= i < |digits| ==> 1 <= digits[i] <= 9
    ensures var id := Candidate(nickname, digits, n);
      && nickname <= id && |id| == |nickname| + (if n == 0 then 0 else 1 + n / 3)
      && forall i :: |nickname| <= i < |id| ==> IsDigit(id[i])
    ensures var base := Base(nickname, digits, n);
      && nickname <= base && |base| == |nickname| + n / 3
      && forall i :: |nickname| <= i < |base| ==> IsDigit(base[i])
    decreases n
  {
    if n > 0 {
      CandidateGrows(nickname, digits, n - 1);
    }
  }

  predicate Busy(db: Db, taken: set<string>, id: string) { FleetName(id) in taken || Taken(db, id) }

  predicate BusyAt(db: Db, nickname: string, taken: set<string>, digits: seq<nat>, n: nat)
    requires n <= |digits| && forall i :: 0 <= i < |digits| ==> 1 <= digits[i] <= 9
  {
    Busy(db, taken, Candidate(nickname, digits, n))
  }

  /** The first `n` candidates are all taken. */
  predicate AllBusy(db: Db, nickname: string, taken: set<string>, digits: seq<nat>, n: nat)
    requires n <= |digits| + 1 && forall i :: 0 <= i < |digits| ==> 1 <= digits[i] <= 9
  {
    forall k :: 0 <= k < n ==> BusyAt(db, nickname, taken, digits, k)
  }

  /** Draws digits until a candidate is free: the first free one; None when the given digits run out. */
  method GenerateId(db: Db, nickname: string, taken: set<string>, digits: seq<nat>) returns (drawn: Option<Draw>)
    requires forall i :: 0 <= i < |digits| ==> 1 <= digits[i] <= 9
    ensures drawn.None? ==> AllBusy(db, nickname, taken, digits, |digits| + 1)
    ensures drawn.Some? ==> drawn.value.nickname == nickname && !Busy(db, taken, drawn.value.id)
    ensures drawn.Some? ==> exists n ::
      0 <= n <= |digits| && drawn.value.id == Candidate(nickname, digits, n) && AllBusy(db, nickname, taken, digits, n)
  {
    var candidate, base := nickname, nickname;
    var counter := 0;
    while FleetName(candidate) in taken || Taken(db, candidate)
      invariant counter <= |digits|
      invariant candidate == Candidate(nickname, digits, counter) && base == Base(nickname, digits, counter)
      invariant AllBusy(db, nickname, taken, digits, counter)
      decreases |digits| - counter
    {
      if counter == |digits| {
        return None;
      }
      counter := counter + 1;
      if counter % 3 == 0 {
        base := candidate;
      }
      candidate := base + [Digit(digits[counter - 1])];
    }
    drawn := Some(Draw(candidate, nickname));
  }

  // ----- committing -----

  datatype Refusal = Unauthorized | BadRequest | NotFound

  /** `consumed` is the session committed and the signup token it carries. */
  datatype Result =
    | Created(agentId: string, approved: bool, consumed: set<string>)
    | Rebound(agentId: string, consumed: set<string>)
    | Refused(why: Refusal)

  predicate IsHuman(token: string) { "human-" <= token }

  /** Whether the token may commit; an agentic session answers its challenge, once. */
  function Admit(db: Db, token: string, response: string, now: int): Option<Refusal> {
    if token == "" || (!IsHuman(token) && response == "") || token !in db.sessions then Some(Unauthorized)
    else
      var s := db.sessions[token];
      if s.org.None? then Some(BadRequest)
      else if s.used || now > s.expires then Some(Unauthorized)
      else if IsHuman(token) then (if s.human.None? then Some(BadRequest) else None)
      else if Upper(s.answer) != Upper(response) then Some(Unauthorized)
      else None
  }

  /** The signup token a session carries, if a human stands behind it. */
  function Carried(s: Session): Option<string> {
    if s.human.Some? && s.owner.Some? && s.owner.value != "" then s.owner else None
  }

  predicate Spendable(db: Db, token: string, now: int) {
    token in db.sessions && !db.sessions[token].used && now <= db.sessions[token].expires
  }

  /** The session that fixed what was promised at mint: the carried one, else the committed one. */
  function Minted(db: Db, token: string): Session
    requires token in db.sessions
    requires Carried(db.sessions[token]).Some? ==> Carried(db.sessions[token]).value in db.sessions
  {
    var carried := Carried(db.sessions[token]);
    if carried.Some? then db.sessions[carried.value] else db.sessions[token]
  }

  function Consumed(db: Db, token: string): set<string>
    requires token in db.sessions
  {
    {token} + var carried := Carried(db.sessions[token]); if carried.Some? then {carried.value} else {}
  }

  function MarkUsed(sessions: map<string, Session>, spent: set<string>): map<string, Session> {
    map t | t in sessions :: if t in spent then sessions[t].(used := true) else sessions[t]
  }

  /** The agent a commit creates: under the promised id while no agent has it, else under the draw. */
  function NewId(db: Db, minted: Session, draw: Draw): Draw {
    if minted.agentId.Some? && minted.agentId.value != "" && minted.agentId.value !in db.agents
    then Draw(minted.agentId.value, minted.nickname) else draw
  }

  /** A commit as one transaction: refused, it changes nothing. */
  function Commit(db: Db, token: string, response: string, now: int, draw: Draw): (Db, Result) {
    var refusal := Admit(db, token, response, now);
    if refusal.Some? then (db, Refused(refusal.value))
    else
      var s := db.sessions[token];
      var carried := Carried(s);
      if carried.Some? && !Spendable(db, carried.value, now) then (db, Refused(Unauthorized))
      else if s.org.value !in db.orgs then (db, Refused(NotFound))
      else
        var minted, spent := Minted(db, token), Consumed(db, token);
        var sessions := MarkUsed(db.sessions, spent);
        if minted.rebind.Some? && minted.rebind.value != "" then
          var id := minted.rebind.value;
          if id !in db.agents || db.agents[id].org != s.org then (db, Refused(Unauthorized))
          else
            var agent := db.agents[id].(keys := db.agents[id].keys + 1, reef := minted.reef);
            (db.(sessions := sessions, agents := db.agents[id := agent]), Rebound(id, spent))
        else
          var made := NewId(db, minted, draw);
          var agent := Agent(made.nickname, if s.human.Some? then s.org else None, s.human, minted.reef, 1);
          (db.(sessions := sessions, agents := db.agents[made.id := agent]),
           Created(made.id, s.human.Some?, spent))
  }

  // ----- what every operation keeps -----

  lemma CommitKeeps(db: Db, token: string, response: string, now: int, draw: Draw)
    requires Sound(db) && !Taken(db, draw.id)
    ensures Sound(Commit(db, token, response, now, draw).0)
  {
    var (db', result) := Commit(db, token, response, now, draw);
    forall t | t in db'.sessions && !db'.sessions[t].used && db'.sessions[t].agentId.Some?
      ensures db'.sessions[t].agentId.value !in db'.agents
    {
      assert t in db.sessions && db'.sessions[t] == db.sessions[t];
      assert Reserved(db, db.sessions[t].agentId.value);
    }
  }

  /** What a successful commit consumed was on file and unused, and is on file and used after. */
  lemma CommitConsumes(db: Db, token: string, response: string, now: int, draw: Draw)
    ensures var (db', result) := Commit(db, token, response, now, draw);
            && (result.Refused? ==> db' == db)
            && (!result.Refused? ==>
                  && token in result.consumed
                  && db'.sessions.Keys == db.sessions.Keys
                  && (forall t :: t in result.consumed ==> t in db.sessions && !db.sessions[t].used)
                  && (forall t :: t in db'.sessions ==>
                        db'.sessions[t] == db.sessions[t].(used := db.sessions[t].used || t in result.consumed)))
  {
  }

  /** A minted signup without a rebind always creates its agent under exactly its minted id and nickname. */
  lemma CommitUnderMintedId(db: Db, token: string, response: string, now: int, draw: Draw)
    requires Sound(db) && !Commit(db, token, response, now, draw).1.Refused?
    ensures token in db.sessions && (Carried(db.sessions[token]).Some? ==> Carried(db.sessions[token]).value in db.sessions)
    ensures var minted := Minted(db, token);
            minted.agentId.Some? && minted.agentId.value != "" && minted.rebind.None? ==>
              var (db', result) := Commit(db, token, response, now, draw);
              var id := minted.agentId.value;
              && result.Created? && result.agentId == id && id !in db.agents
              && id in db'.agents && db'.agents[id].nickname == minted.nickname && db'.agents[id].reef == minted.reef
              && db'.agents == db.agents[id := db'.agents[id]]
  {
  }

  /** A rebind creates no agent: it gives the one that the session names a new key and the session's placement, and
      changes nothing else. */
  lemma RebindKeepsAgents(db: Db, token: string, response: string, now: int, draw: Draw)
    ensures var (db', result) := Commit(db, token, response, now, draw);
            result.Rebound? ==>
              && token in db.sessions
              && (Carried(db.sessions[token]).Some? ==> Carried(db.sessions[token]).value in db.sessions)
              && var minted, id := Minted(db, token), result.agentId;
              && minted.rebind == Some(id) && id in db.agents && db.agents[id].org == db.sessions[token].org
              && db'.agents == db.agents[id := db.agents[id].(keys := db.agents[id].keys + 1, reef := minted.reef)]
  {
  }

  // ----- who may commit -----

  /** A token that may be looked up: a human's needs no response. */
  predicate Presented(token: string, response: string) {
    token != "" && (response != "" || "human-" <= token)
  }

  /** A session on file that is neither used nor expired. */
  predicate Live(db: Db, token: string, now: int) {
    token in db.sessions && !db.sessions[token].used && now <= db.sessions[token].expires
  }

  /** A live session of some org, with its human or with its challenge answered. */
  predicate Answers(db: Db, token: string, response: string, now: int) {
    && Presented(token, response) && Live(db, token, now)
    && var s := db.sessions[token];
       && s.org.Some?
       && (if "human-" <= token then s.human.Some? else SameUpToCase(s.answer, response))
  }

  /** The session to go by: of a human's signup token carried along, that token's. */
  predicate GoesBy(db: Db, token: string, minted: string) {
    && token in db.sessions
    && var s := db.sessions[token];
       if s.human.Some? && s.owner.Some? && s.owner.value != "" then s.owner == Some(minted) else minted == token
  }

  /** A session that names an agent to bind again, by its id. */
  predicate Rebinds(s: Session, id: string) { s.rebind == Some(id) && id != "" }

  /** Everything a commit asks for. */
  ghost predicate MayCommit(db: Db, token: string, response: string, now: int) {
    && Answers(db, token, response, now)
    && (forall minted :: GoesBy(db, token, minted) ==> Live(db, minted, now))
    && db.sessions[token].org.value in db.orgs
    && forall minted :: GoesBy(db, token, minted) ==>
         forall id :: Rebinds(db.sessions[minted], id) ==> id in db.agents && db.agents[id].org == db.sessions[token].org
  }

  /** A commit goes through exactly when everything it asks for holds. A token on file of no org, or a live human's
      without a human, is a bad request; an unknown org of one that answers and goes by a live session is not found;
      everything else is not authorized. */
  lemma CommitIff(db: Db, token: string, response: string, now: int, draw: Draw)
    ensures var result := Commit(db, token, response, now, draw).1;
      && (!result.Refused? <==> MayCommit(db, token, response, now))
      && (result == Refused(BadRequest) <==>
            && Presented(token, response) && token in db.sessions
            && (db.sessions[token].org.None? || (Live(db, token, now) && "human-" <= token && db.sessions[token].human.None?)))
      && (result == Refused(NotFound) <==>
            && Answers(db, token, response, now)
            && (forall minted :: GoesBy(db, token, minted) ==> Live(db, minted, now))
            && db.sessions[token].org.value !in db.orgs)
  {
    if token in db.sessions {
      var s := db.sessions[token];
      UpperIsCaseless(s.answer, response);
      var origin := if Carried(s).Some? then Carried(s).value else token;
      assert GoesBy(db, token, origin) && forall minted :: GoesBy(db, token, minted) ==> minted == origin;
      if origin in db.sessions && db.sessions[origin].rebind.Some? && db.sessions[origin].rebind.value != "" {
        assert Rebinds(db.sessions[origin], db.sessions[origin].rebind.value);
      }
    }
  }

  /** A created agent has the session's org and human when the session has a human, else neither until someone approves
      it; its id is the one promised while no agent has it, and else the one drawn. */
  lemma CreatedAgent(db: Db, token: string, response: string, now: int, draw: Draw, origin: string)
    requires Commit(db, token, response, now, draw).1.Created? && GoesBy(db, token, origin)
    ensures token in db.sessions && origin in db.sessions
    ensures
      var (db', result) := Commit(db, token, response, now, draw);
      var s, minted := db.sessions[token], db.sessions[origin];
      var promised := minted.agentId.Some? && minted.agentId.value != "" && minted.agentId.value !in db.agents;
      && result.agentId == (if promised then minted.agentId.value else draw.id)
      && result.approved == s.human.Some? && result.consumed == {token, origin}
      && db'.agents == db.agents[result.agentId := Agent(
           if promised then minted.nickname else draw.nickname,
           if s.human.Some? then s.org else None, s.human, minted.reef, 1)]
  {
  }

  /** A wrong answer to the challenge creates nothing, whatever else is on file. */
  lemma WrongAnswerIsRefused(db: Db, token: string, response: string, now: int, draw: Draw)
    requires token in db.sessions && db.sessions[token].org.Some? && !("human-" <= token)
    requires !SameUpToCase(db.sessions[token].answer, response)
    ensures Commit(db, token, response, now, draw) == (db, Refused(Unauthorized))
  {
    CommitIff(db, token, response, now, draw);
    CommitConsumes(db, token, response, now, draw);
  }

  // ----- the tables, as the server changes them -----

  /** The ids of the first draws are held by sessions. */
  predicate AllReserved(db: Db, draws: seq<Draw>, n: nat)
    requires n <= |draws|
  {
    forall i :: 0 <= i < n ==> Reserved(db, draws[i].id)
  }

  /** A placement asked for without a name takes the fleet name of the agent's id. */
  function Placement(reef: Option<(string, Option<string>)>, id: string): Option<Reef> {
    if reef.None? then None
    else
      var (host, name) := reef.value;
      Some(Reef(host, if name.Some? && name.value != "" then name.value else FleetName(id)))
  }

  function HumanSession(answer: string, expires: int, org: string, human: int, reef: Option<(string, Option<string>)>,
      draw: Draw): Session
  {
    Session(false, expires, answer, Some(org), Some(human), None, Some(draw.id), draw.nickname,
      Placement(reef, draw.id), None)
  }

  /** A session minted with a placement names the agent there as it was asked to, else after its id. */
  lemma PlacementOf(host: string, name: Option<string>, answer: string, expires: int, org: string, human: int, draw: Draw)
    ensures HumanSession(answer, expires, org, human, Some((host, name)), draw).reef == Some(Reef(host,
      match name
      case None => FleetName(draw.id)
      case Some(given) => if given == "" then FleetName(draw.id) else given))
    ensures HumanSession(answer, expires, org, human, None, draw).reef.None?
  {
  }

  lemma MintKeeps(db: Db, token: string, session: Session)
    requires Sound(db) && token !in db.sessions
    requires session.agentId.Some? && !Taken(db, session.agentId.value)
    ensures Sound(db.(sessions := db.sessions[token := session]))
  {
    forall t | t in db.sessions
      ensures db.sessions[t].agentId != session.agentId
    {
    }
  }

  /** Python's truth of an optional text. */
  predicate Given(text: Option<string>) { text.Some? && text.value != "" }

  /** Why an agent may not open a signup: an unknown org, or a signup token that is spent or another org's. */
  function AgenticRefusal(db: Db, org: string, signup: Option<string>, now: int): Option<Refusal> {
    if org !in db.orgs then Some(NotFound)
    else if !Given(signup) then None
    else if !Spendable(db, signup.value, now) then Some(Unauthorized)
    else if db.sessions[signup.value].org != Some(org) || db.sessions[signup.value].human.None? then Some(Unauthorized)
    else None
  }

  class Store {
    var sessions: map<string, Session>
    var agents: map<string, Agent>
    const orgs: set<string>

    constructor (orgs: set<string>)
      ensures this.orgs == orgs && sessions == map[] && agents == map[] && Sound(State())
    {
      this.orgs := orgs;
      sessions, agents := map[], map[];
    }

    function State(): Db
      reads this
    {
      Db(sessions, agents, orgs)
    }

    /** A human signup session with its agent's id picked now. A draw whose id a concurrent mint took
        first loses on the unique index; eight tries, then none. */
    method MintHuman(token: string, answer: string, expires: int, org: string, human: int,
        reef: Option<(string, Option<string>)>, draws: seq<Draw>)
      returns (minted: Option<Draw>)
      requires Sound(State()) && token !in sessions
      requires forall i :: 0 <= i < |draws| ==> draws[i].id !in agents
      modifies this
      ensures Sound(State()) && agents == old(agents)
      ensures minted.None? ==> sessions == old(sessions) && AllReserved(old(State()), draws, if |draws| < 8 then |draws| else 8)
      ensures minted.Some? ==>
        && (exists i :: 0 <= i < |draws| && i < 8 && minted.value == draws[i] && AllReserved(old(State()), draws, i))
        && !Reserved(old(State()), minted.value.id)
        && sessions == old(sessions)[token := HumanSession(answer, expires, org, human, reef, minted.value)]
    {
      for i := 0 to if |draws| < 8 then |draws| else 8
        invariant sessions == old(sessions) && agents == old(agents)
        invariant AllReserved(State(), draws, i)
      {
        var draw := draws[i];
        if !(exists t :: t in sessions && sessions[t].agentId == Some(draw.id)) {
          MintKeeps(State(), token, HumanSession(answer, expires, org, human, reef, draw));
          sessions := sessions[token := HumanSession(answer, expires, org, human, reef, draw)];
          return Some(draw);
        }
      }
      minted := None;
    }

    /** A human session that at commit gives an existing agent a new key and placement. */
    method MintRebind(token: string, answer: string, expires: int, org: string, human: int, agentId: string, reef: Reef)
      requires Sound(State()) && token !in sessions
      modifies this
      ensures Sound(State()) && agents == old(agents)
      ensures sessions == old(sessions)[token :=
        Session(false, expires, answer, Some(org), Some(human), None, None, "", Some(reef), Some(agentId))]
    {
      sessions := sessions[token :=
        Session(false, expires, answer, Some(org), Some(human), None, None, "", Some(reef), Some(agentId))];
    }

    /** The first step of an agent's signup: its session carries the signup token it was given, and the human
        behind that one. */
    method OpenAgentic(token: string, answer: string, expires: int, now: int, org: string, signup: Option<string>)
      returns (refusal: Option<Refusal>)
      requires Sound(State()) && token !in sessions
      modifies this
      ensures Sound(State()) && agents == old(agents)
      ensures refusal == AgenticRefusal(old(State()), org, signup, now)
      ensures refusal.Some? ==> sessions == old(sessions)
      ensures refusal.None? ==>
        && (Given(signup) ==> signup.value in old(sessions))
        && sessions == old(sessions)[token := Session(false, expires, answer, Some(org),
             if Given(signup) then old(sessions)[signup.value].human else None, signup, None, "", None, None)]
    {
      var human: Option<int> := None;
      if org !in orgs {
        return Some(NotFound);
      }
      if Given(signup) {
        if signup.value !in sessions {
          return Some(Unauthorized);
        }
        var carried := sessions[signup.value];
        if carried.used || now > carried.expires || carried.org != Some(org) || carried.human.None? {
          return Some(Unauthorized);
        }
        human := carried.human;
      }
      sessions := sessions[token := Session(false, expires, answer, Some(org), human, signup, None, "", None, None)];
      refusal := None;
    }

    /** The second step of a signup: spends the tokens and creates or rebinds the agent. */
    method CommitSignup(token: string, response: string, now: int, draw: Draw) returns (result: Result)
      requires Sound(State()) && !Taken(State(), draw.id)
      modifies this
      ensures Sound(State()) && (State(), result) == Commit(old(State()), token, response, now, draw)
    {
      CommitKeeps(State(), token, response, now, draw);
      var refusal := Admit(State(), token, response, now);
      if refusal.Some? {
        return Refused(refusal.value);
      }
      var s := sessions[token];
      var carried := Carried(s);
      var minted, spent := s, {token};
      if carried.Some? {
        if carried.value !in sessions || sessions[carried.value].used || now > sessions[carried.value].expires {
          return Refused(Unauthorized);
        }
        minted := sessions[carried.value];
        spent := {token, carried.value};
      }
      assert spent == Consumed(State(), token) && minted == Minted(State(), token);
      if s.org.value !in orgs {
        return Refused(NotFound);
      }
      if minted.rebind.Some? && minted.rebind.value != "" {
        var id := minted.rebind.value;
        if id !in agents || agents[id].org != s.org {
          return Refused(Unauthorized);
        }
        agents := agents[id := agents[id].(keys := agents[id].keys + 1, reef := minted.reef)];
        sessions := MarkUsed(sessions, spent);
        return Rebound(id, spent);
      }
      var made := NewId(State(), minted, draw);
      agents := agents[made.id := Agent(made.nickname, if s.human.Some? then s.org else None, s.human, minted.reef, 1)];
      sessions := MarkUsed(sessions, spent);
      result := Created(made.id, s.human.Some?, spent);
    }
  }
}
