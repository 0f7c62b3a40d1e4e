/** Every run of mints, commits and deletions: no token is spent twice, and no promise is broken. */
module SignupRuns {
  import opened Options
  import opened Signup

  /** A successful commit: the session tokens it consumed and the agent it created or rebound. */
  datatype Spent = Spent(consumed: set<string>, agentId: string)

  /** `issued` is every token ever drawn; tokens are random, so one is never drawn twice. */
  datatype World = World(db: Db, issued: set<string>, log: seq<Spent>)

  datatype Event =
    | MintFor(token: string, session: Session)
    | OpenWith(token: string, session: Session)
    | CommitWith(token: string, response: string, now: int, draw: Draw)
    | MarkSpent(token: string)  // an agent's own challenge
    | DropSession(token: string)  // expired, revoked or failed
    | DropAgent(id: string)

  /** What the code guarantees of an operation before it runs. */
  predicate Enabled(w: World, e: Event) {
    match e
    case MintFor(token, s) =>
      token !in w.issued && !s.used && s.agentId.Some? && !Taken(w.db, s.agentId.value)
    case OpenWith(token, s) => token !in w.issued && !s.used && s.agentId.None?
    case CommitWith(_, _, _, draw) => !Taken(w.db, draw.id)
    case _ => true
  }

  function Put(w: World, token: string, s: Session): World {
    w.(db := w.db.(sessions := w.db.sessions[token := s]), issued := w.issued + {token})
  }

  function Step(w: World, e: Event): World {
    if !Enabled(w, e) then w
    else
      match e
      case MintFor(token, s) => Put(w, token, s)
      case OpenWith(token, s) => Put(w, token, s)
      case CommitWith(token, response, now, draw) =>
        var (db, result) := Commit(w.db, token, response, now, draw);
        w.(db := db, log := if result.Refused? then w.log else w.log + [Spent(result.consumed, result.agentId)])
      case MarkSpent(token) => w.(db := w.db.(sessions := MarkUsed(w.db.sessions, {token})))
      case DropSession(token) => w.(db := w.db.(sessions := w.db.sessions - {token}))
      case DropAgent(id) =>
        w.(db := w.db.(agents := w.db.agents - {id},
                       sessions := map t | t in w.db.sessions && w.db.sessions[t].rebind != Some(id) :: w.db.sessions[t]))
  }

  function Run(w: World, events: seq<Event>): World
    decreases events
  {
    if events == [] then w else Run(Step(w, events[0]), events[1..])
  }

  /** Spent tokens stay spent, wherever they are still on file. */
  ghost predicate Gone(w: World, consumed: set<string>) {
    forall t :: t in consumed ==> t in w.issued && (t in w.db.sessions ==> w.db.sessions[t].used)
  }

  ghost predicate Inv(w: World) {
    && Sound(w.db)
    && w.db.sessions.Keys <= w.issued
    && (forall i :: 0 <= i < |w.log| ==> Gone(w, w.log[i].consumed))
    && (forall i, j :: 0 <= i < j < |w.log| ==> w.log[i].consumed !! w.log[j].consumed)
  }

  lemma PutKeeps(w: World, token: string, s: Session)
    requires Inv(w) && token !in w.issued && !s.used
    requires s.agentId.Some? ==> !Taken(w.db, s.agentId.value)
    ensures Inv(Put(w, token, s))
  {
    var w' := Put(w, token, s);
    forall a, b | a in w'.db.sessions && b in w'.db.sessions && a != b
      ensures w'.db.sessions[a].agentId.Some? ==> w'.db.sessions[a].agentId != w'.db.sessions[b].agentId
    {
      if a == token && s.agentId.Some? {
        assert b in w.db.sessions && w'.db.sessions[b] == w.db.sessions[b];
      } else if b == token && s.agentId.Some? {
        assert a in w.db.sessions && w'.db.sessions[a] == w.db.sessions[a];
      }
    }
  }

  lemma CommitStepKeeps(w: World, token: string, response: string, now: int, draw: Draw)
    requires Inv(w) && !Taken(w.db, draw.id)
    ensures Inv(Step(w, CommitWith(token, response, now, draw)))
  {
    CommitKeeps(w.db, token, response, now, draw);
    CommitConsumes(w.db, token, response, now, draw);
    var w' := Step(w, CommitWith(token, response, now, draw));
    var (db, result) := Commit(w.db, token, response, now, draw);
    if !result.Refused? {
      forall i | 0 <= i < |w.log| ensures w.log[i].consumed !! result.consumed {
        assert Gone(w, w.log[i].consumed);
      }
      forall i | 0 <= i < |w'.log| ensures Gone(w', w'.log[i].consumed) {
        if i < |w.log| {
          assert Gone(w, w.log[i].consumed);
        }
      }
    }
  }

  /** Deleting rows, or marking more of them used, keeps everything. */
  lemma FewerKeeps(w: World, w': World)
    requires Inv(w) && w'.issued == w.issued && w'.log == w.log
    requires w'.db.sessions.Keys <= w.db.sessions.Keys && w'.db.agents.Keys <= w.db.agents.Keys
    requires forall t :: t in w'.db.sessions ==>
      w'.db.sessions[t] == w.db.sessions[t] || w'.db.sessions[t] == w.db.sessions[t].(used := true)
    ensures Inv(w')
  {
    forall a, b | a in w'.db.sessions && b in w'.db.sessions && a != b
      ensures w'.db.sessions[a].agentId.Some? ==> w'.db.sessions[a].agentId != w'.db.sessions[b].agentId
    {
      assert a in w.db.sessions && b in w.db.sessions;
    }
    forall i | 0 <= i < |w.log| ensures Gone(w', w.log[i].consumed) {
      assert Gone(w, w.log[i].consumed);
    }
  }

  lemma StepKeeps(w: World, e: Event)
    requires Inv(w)
    ensures Inv(Step(w, e))
  {
    if Enabled(w, e) {
      match e
      case MintFor(token, s) => PutKeeps(w, token, s);
      case OpenWith(token, s) => PutKeeps(w, token, s);
      case CommitWith(token, response, now, draw) => CommitStepKeeps(w, token, response, now, draw);
      case MarkSpent(token) => FewerKeeps(w, Step(w, e));
      case DropSession(token) => FewerKeeps(w, Step(w, e));
      case DropAgent(id) => FewerKeeps(w, Step(w, e));
    }
  }

  lemma {:induction false} RunKeeps(w: World, events: seq<Event>)
    requires Inv(w)
    ensures Inv(Run(w, events))
    decreases events
  {
    if events != [] {
      StepKeeps(w, events[0]);
      RunKeeps(Step(w, events[0]), events[1..]);
    }
  }

  function Empty(orgs: set<string>): World { World(Db(map[], map[], orgs), {}, []) }

  /** Over every run the tokens consumed by distinct successful commits are disjoint, and no unused
      session reserves an existing agent's id. */
  lemma TokensAreSpentOnce(orgs: set<string>, events: seq<Event>)
    ensures var w := Run(Empty(orgs), events);
            && (forall i, j :: 0 <= i < j < |w.log| ==> w.log[i].consumed !! w.log[j].consumed)
            && (forall t :: t in w.db.sessions && !w.db.sessions[t].used && w.db.sessions[t].agentId.Some?
                  ==> w.db.sessions[t].agentId.value !in w.db.agents)
  {
    RunKeeps(Empty(orgs), events);
  }

  /** At any point of any run a successful commit of a minted signup without a rebind creates the agent
      under its minted id and nickname, an id no agent had. */
  lemma PromisesAreKept(orgs: set<string>, events: seq<Event>, token: string, response: string, now: int, draw: Draw)
    requires var db := Run(Empty(orgs), events).db; !Commit(db, token, response, now, draw).1.Refused?
    ensures var db := Run(Empty(orgs), events).db;
            && token in db.sessions
            && (Carried(db.sessions[token]).Some? ==> Carried(db.sessions[token]).value in db.sessions)
            && var minted := Minted(db, token);
               minted.agentId.Some? && minted.agentId.value != "" && minted.rebind.None? ==>
                 var (db', result) := Commit(db, token, response, now, draw);
                 && result.Created? && result.agentId == minted.agentId.value && result.agentId !in db.agents
                 && result.agentId in db'.agents && db'.agents[result.agentId].nickname == minted.nickname
  {
    RunKeeps(Empty(orgs), events);
    CommitUnderMintedId(Run(Empty(orgs), events).db, token, response, now, draw);
  }
}
