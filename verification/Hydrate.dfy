/** Posts turned into responses: a whole batch loads each relation once, and must answer as if post by post. */
module Hydrate {
  import opened Options
  import opened Text

  // ----- the tables -----

  /** `other` stands for the columns that are copied to the response as they are. */
  datatype Post = Post(
    id: int, human: Option<int>, agent: Option<string>, message: Option<string>, status: string,
    updatedAt: Option<string>, parent: Option<int>, ui: Option<string>, other: string)

  /** A person: `avatar` is the reference made from the row's version and kind. */
  datatype Human = Human(displayName: Option<string>, avatar: string)

  /** An agent with the display name of its profile, if it has a profile and the profile a name. */
  datatype Agent = Agent(nickname: Option<string>, profileName: Option<string>, avatar: string)

  datatype Reaction = Reaction(post: int, emoji: string, human: Option<int>, agent: Option<string>)

  datatype File = File(post: Option<int>, status: string, columns: string)

  /** Tables read by key are maps; reactions are listed by `id` and files by `file_id`, their statements' order. */
  datatype Database = Database(
    posts: map<int, Post>, humans: map<int, Human>, agents: map<string, Agent>,
    reactions: seq<Reaction>, files: seq<File>)

  // ----- the response -----

  datatype Identity = Identity(name: Option<string>, avatar: Option<string>)

  datatype Bucket = Bucket(emoji: string, count: nat, humans: seq<int>, agents: seq<string>)

  datatype Preview = Preview(
    id: int, agent: Option<string>, human: Option<int>, name: Option<string>, excerpt: string, status: string,
    attachments: nat)

  datatype Response = Response(
    post: Post, identity: Identity, publishedAt: Option<string>, preview: Option<Preview>, reactions: seq<Bucket>,
    files: seq<string>)

  // ----- one post, by itself -----

  /** Python's `a or b` on texts. */
  function Or(a: Option<string>, b: Option<string>): Option<string> {
    if a.Some? && a.value != "" then a else b
  }

  function HumanIdentity(h: Human): Identity { Identity(h.displayName, Some(h.avatar)) }

  function AgentIdentity(name: string, a: Agent): Identity {
    Identity(Or(Or(a.profileName, a.nickname), Some(name)), Some(a.avatar))
  }

  /** Who posted: the row's person or agent, with a bare fallback when that row is gone. */
  function IdentityOf(db: Database, p: Post): Identity {
    if p.human.Some? then
      if p.human.value in db.humans then HumanIdentity(db.humans[p.human.value]) else Identity(None, None)
    else if p.agent.Some? then
      if p.agent.value in db.agents then AgentIdentity(p.agent.value, db.agents[p.agent.value])
      else Identity(p.agent, None)
    else Identity(None, None)
  }

  const EXCERPT_LIMIT := 140

  function Excerpt(p: Post): string {
    var whole := Strip(if p.message.Some? then p.message.value else "");
    var text := if p.ui.Some? then Partition(whole, '\n').0 else whole;
    if |text| > EXCERPT_LIMIT then RStrip(text[..EXCERPT_LIMIT - 1]) + "\U{2026}" else text
  }

  /** The uploaded files of a post, in order. */
  function FilesOf(files: seq<File>, id: int): seq<string> {
    if files == [] then []
    else
      var n := |files| - 1;
      FilesOf(files[..n], id) + if files[n].post == Some(id) && files[n].status == "uploaded" then [files[n].columns] else []
  }

  function ReactionsOf(rows: seq<Reaction>, id: int): seq<Reaction> {
    if rows == [] then []
    else
      var n := |rows| - 1;
      ReactionsOf(rows[..n], id) + if rows[n].post == id then [rows[n]] else []
  }

  /** The emojis used, in the order of their first use. */
  function Emojis(rows: seq<Reaction>): seq<string> {
    if rows == [] then []
    else
      var n := |rows| - 1;
      Emojis(rows[..n]) + if rows[n].emoji in Emojis(rows[..n]) then [] else [rows[n].emoji]
  }

  function HumanPart(r: Reaction): seq<int> { if r.human.Some? then [r.human.value] else [] }

  function AgentPart(r: Reaction): seq<string> { if r.agent.Some? then [r.agent.value] else [] }

  /** All uses of one emoji: how many, and by whom. */
  function BucketOf(rows: seq<Reaction>, emoji: string): Bucket {
    if rows == [] then Bucket(emoji, 0, [], [])
    else
      var n := |rows| - 1;
      var before := BucketOf(rows[..n], emoji);
      if rows[n].emoji == emoji then
        Bucket(emoji, before.count + 1, before.humans + HumanPart(rows[n]), before.agents + AgentPart(rows[n]))
      else before
  }

  function Grouped(rows: seq<Reaction>): seq<Bucket> {
    seq(|Emojis(rows)|, i requires 0 <= i < |Emojis(rows)| => BucketOf(rows, Emojis(rows)[i]))
  }

  function PreviewOf(db: Database, p: Post): Option<Preview> {
    if p.parent.None? || p.parent.value !in db.posts then None
    else
      var parent := db.posts[p.parent.value];
      Some(Preview(parent.id, parent.agent, parent.human, IdentityOf(db, parent).name, Excerpt(parent),
        parent.status, |FilesOf(db.files, parent.id)|))
  }

  /** The response for one post, read straight from the tables. */
  function Hydrated(db: Database, p: Post): Response {
    Response(p, IdentityOf(db, p), if p.status == "published" then p.updatedAt else None, PreviewOf(db, p),
      Grouped(ReactionsOf(db.reactions, p.id)), FilesOf(db.files, p.id))
  }

  // ----- the batch's dictionaries -----

  function GetOr<K, V>(m: map<K, V>, k: K, otherwise: V): V { if k in m then m[k] else otherwise }

  /** The rows of a statement `where post_id in ids`. */
  function ReactionRows(rows: seq<Reaction>, ids: set<int>): seq<Reaction> {
    if rows == [] then []
    else
      var n := |rows| - 1;
      ReactionRows(rows[..n], ids) + if rows[n].post in ids then [rows[n]] else []
  }

  function FileRows(files: seq<File>, ids: set<int>): seq<File> {
    if files == [] then []
    else
      var n := |files| - 1;
      FileRows(files[..n], ids)
      + if files[n].post.Some? && files[n].post.value in ids && files[n].status == "uploaded" then [files[n]] else []
  }

  function Plus(b: Bucket, r: Reaction): Bucket {
    Bucket(b.emoji, b.count + 1, b.humans + HumanPart(r), b.agents + AgentPart(r))
  }

  /** The emoji's bucket, made at the end if there is none yet, takes one more reaction. */
  function AddReaction(buckets: seq<Bucket>, r: Reaction): seq<Bucket> {
    if buckets == [] then [Plus(Bucket(r.emoji, 0, [], []), r)]
    else if buckets[0].emoji == r.emoji then [Plus(buckets[0], r)] + buckets[1..]
    else [buckets[0]] + AddReaction(buckets[1..], r)
  }

  lemma {:induction false} AddToNone(buckets: seq<Bucket>, r: Reaction)
    requires forall i :: 0 <= i < |buckets| ==> buckets[i].emoji != r.emoji
    ensures AddReaction(buckets, r) == buckets + [Plus(Bucket(r.emoji, 0, [], []), r)]
  {
    if buckets != [] {
      AddToNone(buckets[1..], r);
    }
  }

  lemma {:induction false} AddToOne(buckets: seq<Bucket>, r: Reaction, k: nat)
    requires k < |buckets| && buckets[k].emoji == r.emoji
    requires forall i :: 0 <= i < k ==> buckets[i].emoji != r.emoji
    ensures AddReaction(buckets, r) == buckets[k := Plus(buckets[k], r)]
  {
    if k > 0 {
      AddToOne(buckets[1..], r, k - 1);
    }
  }

  lemma {:induction false} EmojisDistinct(rows: seq<Reaction>)
    ensures forall i, j :: 0 <= i < j < |Emojis(rows)| ==> Emojis(rows)[i] != Emojis(rows)[j]
  {
    if rows != [] {
      EmojisDistinct(rows[..|rows| - 1]);
    }
  }

  lemma {:induction false} BucketEmoji(rows: seq<Reaction>, emoji: string)
    ensures BucketOf(rows, emoji).emoji == emoji
  {
    if rows != [] {
      BucketEmoji(rows[..|rows| - 1], emoji);
    }
  }

  lemma {:induction false} UnusedBucket(rows: seq<Reaction>, emoji: string)
    requires emoji !in Emojis(rows)
    ensures BucketOf(rows, emoji) == Bucket(emoji, 0, [], [])
  {
    if rows != [] {
      UnusedBucket(rows[..|rows| - 1], emoji);
    }
  }

  lemma BucketSnoc(rows: seq<Reaction>, r: Reaction, emoji: string)
    ensures BucketOf(rows + [r], emoji)
         == if r.emoji == emoji then Plus(BucketOf(rows, emoji), r) else BucketOf(rows, emoji)
  {
    assert (rows + [r])[..|rows|] == rows;
    BucketEmoji(rows, emoji);
  }

  lemma EmojisSnoc(rows: seq<Reaction>, r: Reaction)
    ensures Emojis(rows + [r]) == Emojis(rows) + if r.emoji in Emojis(rows) then [] else [r.emoji]
  {
    assert (rows + [r])[..|rows|] == rows;
  }

  lemma GroupedEmojis(rows: seq<Reaction>)
    ensures forall i :: 0 <= i < |Grouped(rows)| ==> Grouped(rows)[i].emoji == Emojis(rows)[i]
  {
    forall i | 0 <= i < |Grouped(rows)|
      ensures Grouped(rows)[i].emoji == Emojis(rows)[i]
    {
      BucketEmoji(rows, Emojis(rows)[i]);
    }
  }

  lemma KnownEmoji(rows: seq<Reaction>, r: Reaction, k: nat)
    requires k < |Emojis(rows)| && Emojis(rows)[k] == r.emoji
    ensures Grouped(rows + [r]) == AddReaction(Grouped(rows), r)
  {
    EmojisSnoc(rows, r);
    GroupedEmojis(rows);
    EmojisDistinct(rows);
    forall i | 0 <= i < |Emojis(rows)| {
      BucketSnoc(rows, r, Emojis(rows)[i]);
    }
    AddToOne(Grouped(rows), r, k);
    assert Grouped(rows + [r]) == Grouped(rows)[k := Plus(Grouped(rows)[k], r)];
  }

  lemma NewEmoji(rows: seq<Reaction>, r: Reaction)
    requires r.emoji !in Emojis(rows)
    ensures Grouped(rows + [r]) == AddReaction(Grouped(rows), r)
  {
    EmojisSnoc(rows, r);
    GroupedEmojis(rows);
    forall i | 0 <= i < |Emojis(rows)| {
      BucketSnoc(rows, r, Emojis(rows)[i]);
    }
    BucketSnoc(rows, r, r.emoji);
    UnusedBucket(rows, r.emoji);
    AddToNone(Grouped(rows), r);
    assert Grouped(rows + [r]) == Grouped(rows) + [Plus(BucketOf(rows, r.emoji), r)];
  }

  /** One more row: the grouping by emoji is what the dictionary holds after it. */
  lemma GroupedSnoc(rows: seq<Reaction>, r: Reaction)
    ensures Grouped(rows + [r]) == AddReaction(Grouped(rows), r)
  {
    if k :| 0 <= k < |Emojis(rows)| && Emojis(rows)[k] == r.emoji {
      KnownEmoji(rows, r, k);
    } else {
      NewEmoji(rows, r);
    }
  }

  lemma {:induction false} SelectedReactions(rows: seq<Reaction>, ids: set<int>, id: int)
    ensures ReactionsOf(ReactionRows(rows, ids), id) == if id in ids then ReactionsOf(rows, id) else []
  {
    if rows != [] {
      var n := |rows| - 1;
      SelectedReactions(rows[..n], ids, id);
      var before := ReactionRows(rows[..n], ids);
      if rows[n].post in ids {
        assert (before + [rows[n]])[..|before|] == before;
      } else {
        assert ReactionRows(rows, ids) == before;
      }
    }
  }

  lemma {:induction false} SelectedFiles(files: seq<File>, ids: set<int>, id: int)
    ensures FilesOf(FileRows(files, ids), id) == if id in ids then FilesOf(files, id) else []
  {
    if files != [] {
      var n := |files| - 1;
      SelectedFiles(files[..n], ids, id);
      var before := FileRows(files[..n], ids);
      if files[n].post.Some? && files[n].post.value in ids && files[n].status == "uploaded" {
        assert (before + [files[n]])[..|before|] == before;
      } else {
        assert FileRows(files, ids) == before;
      }
    }
  }

  lemma {:induction false} SelectedUploaded(files: seq<File>, ids: set<int>)
    ensures forall i :: 0 <= i < |FileRows(files, ids)| ==>
      var f := FileRows(files, ids)[i]; f.post.Some? && f.post.value in ids && f.status == "uploaded"
  {
    if files != [] {
      SelectedUploaded(files[..|files| - 1], ids);
    }
  }

  // ----- the batch -----

  /** The reactions of the batch's posts, by post and then by emoji. */
  method GroupReactions(rows: seq<Reaction>) returns (reactions: map<int, seq<Bucket>>)
    ensures forall id :: GetOr(reactions, id, []) == Grouped(ReactionsOf(rows, id))
  {
    reactions := map[];
    for i := 0 to |rows|
      invariant forall id :: GetOr(reactions, id, []) == Grouped(ReactionsOf(rows[..i], id))
    {
      assert rows[..i + 1][..i] == rows[..i];
      var r := rows[i];
      GroupedSnoc(ReactionsOf(rows[..i], r.post), r);
      forall id | id != r.post
        ensures ReactionsOf(rows[..i + 1], id) == ReactionsOf(rows[..i], id)
      {
      }
      reactions := reactions[r.post := AddReaction(GetOr(reactions, r.post, []), r)];
    }
    assert rows[..|rows|] == rows;
  }

  /** The uploaded files of the batch's posts and their parents, by post. */
  method GroupFiles(rows: seq<File>) returns (files: map<int, seq<string>>)
    requires forall i :: 0 <= i < |rows| ==> rows[i].post.Some? && rows[i].status == "uploaded"
    ensures forall id :: GetOr(files, id, []) == FilesOf(rows, id)
  {
    files := map[];
    for i := 0 to |rows|
      invariant forall id :: GetOr(files, id, []) == FilesOf(rows[..i], id)
    {
      assert rows[..i + 1][..i] == rows[..i];
      var id := rows[i].post.value;
      files := files[id := GetOr(files, id, []) + [rows[i].columns]];
    }
    assert rows[..|rows|] == rows;
  }

  /** The dictionaries that a batch loads. */
  datatype Loaded = Loaded(
    parents: map<int, Post>, humans: map<int, Identity>, agents: map<string, Identity>,
    reactions: map<int, seq<Bucket>>, files: map<int, seq<string>>)

  function LoadedIdentity(l: Loaded, p: Post): Identity {
    if p.human.Some? then GetOr(l.humans, p.human.value, Identity(None, None))
    else if p.agent.Some? then GetOr(l.agents, p.agent.value, Identity(p.agent, None))
    else Identity(None, None)
  }

  function LoadedPreview(l: Loaded, p: Post): Option<Preview> {
    if p.parent.None? || p.parent.value !in l.parents then None
    else
      var parent := l.parents[p.parent.value];
      Some(Preview(parent.id, parent.agent, parent.human, LoadedIdentity(l, parent).name, Excerpt(parent),
        parent.status, |GetOr(l.files, parent.id, [])|))
  }

  function LoadedResponse(l: Loaded, p: Post): Response {
    Response(p, LoadedIdentity(l, p), if p.status == "published" then p.updatedAt else None, LoadedPreview(l, p),
      GetOr(l.reactions, p.id, []), GetOr(l.files, p.id, []))
  }

  function Parents(db: Database, posts: seq<Post>): map<int, Post> {
    var ids := set p | p in posts && p.parent.Some? :: p.parent.value;
    map id | id in ids && id in db.posts :: db.posts[id]
  }

  function Authors(db: Database, posts: seq<Post>): set<Post> {
    (set p | p in posts) + Parents(db, posts).Values
  }

  function Humans(db: Database, authors: set<Post>): map<int, Identity> {
    var ids := set p | p in authors && p.human.Some? :: p.human.value;
    map id | id in ids && id in db.humans :: HumanIdentity(db.humans[id])
  }

  function Agents(db: Database, authors: set<Post>): map<string, Identity> {
    var names := set p | p in authors && p.agent.Some? :: p.agent.value;
    map name | name in names && name in db.agents :: AgentIdentity(name, db.agents[name])
  }

  lemma LoadedAuthor(db: Database, authors: set<Post>, l: Loaded, p: Post)
    requires p in authors && l.humans == Humans(db, authors) && l.agents == Agents(db, authors)
    ensures LoadedIdentity(l, p) == IdentityOf(db, p)
  {
  }

  /** What the loops leave in the dictionaries is, for the batch's posts, what the tables say of each. */
  predicate Faithful(db: Database, posts: seq<Post>, l: Loaded) {
    && l.parents == Parents(db, posts)
    && l.humans == Humans(db, Authors(db, posts))
    && l.agents == Agents(db, Authors(db, posts))
    && (forall p | p in posts :: GetOr(l.reactions, p.id, []) == Grouped(ReactionsOf(db.reactions, p.id)))
    && (forall p | p in Authors(db, posts) :: GetOr(l.files, p.id, []) == FilesOf(db.files, p.id))
  }

  lemma FaithfulPreview(db: Database, posts: seq<Post>, l: Loaded, p: Post)
    requires Faithful(db, posts, l) && p in posts
    ensures LoadedPreview(l, p) == PreviewOf(db, p)
  {
    if p.parent.Some? && p.parent.value in db.posts {
      assert p.parent.value in l.parents;
      var parent := db.posts[p.parent.value];
      assert parent in Parents(db, posts).Values;
      LoadedAuthor(db, Authors(db, posts), l, parent);
    }
  }

  lemma FaithfulResponse(db: Database, posts: seq<Post>, l: Loaded, p: Post)
    requires Faithful(db, posts, l) && p in posts
    ensures LoadedResponse(l, p) == Hydrated(db, p)
  {
    FaithfulPreview(db, posts, l, p);
    LoadedAuthor(db, Authors(db, posts), l, p);
  }

  lemma FaithfulRows(db: Database, posts: seq<Post>, l: Loaded)
    requires l.parents == Parents(db, posts)
    requires l.humans == Humans(db, Authors(db, posts)) && l.agents == Agents(db, Authors(db, posts))
    requires var rows := ReactionRows(db.reactions, set p | p in posts :: p.id);
      forall id :: GetOr(l.reactions, id, []) == Grouped(ReactionsOf(rows, id))
    requires var rows := FileRows(db.files, set p | p in Authors(db, posts) :: p.id);
      forall id :: GetOr(l.files, id, []) == FilesOf(rows, id)
    ensures Faithful(db, posts, l)
  {
    forall p | p in posts {
      SelectedReactions(db.reactions, set q | q in posts :: q.id, p.id);
    }
    forall p | p in Authors(db, posts) {
      SelectedFiles(db.files, set q | q in Authors(db, posts) :: q.id, p.id);
    }
  }

  /** A batch answers each post as that post alone: with one post, or with any others around it. */
  method HydrateMmPosts(db: Database, posts: seq<Post>) returns (responses: seq<Response>)
    ensures |responses| == |posts|
    ensures forall i :: 0 <= i < |posts| ==> responses[i] == Hydrated(db, posts[i])
  {
    if posts == [] {
      return [];
    }
    var authors := Authors(db, posts);
    var reactions := GroupReactions(ReactionRows(db.reactions, set p | p in posts :: p.id));
    var authorIds := set p | p in authors :: p.id;
    SelectedUploaded(db.files, authorIds);
    var files := GroupFiles(FileRows(db.files, authorIds));
    var l := Loaded(Parents(db, posts), Humans(db, authors), Agents(db, authors), reactions, files);
    FaithfulRows(db, posts, l);
    forall i | 0 <= i < |posts| {
      FaithfulResponse(db, posts, l, posts[i]);
    }
    responses := seq(|posts|, i requires 0 <= i < |posts| => LoadedResponse(l, posts[i]));
  }

  // ----- what a response says -----

  function Uses(buckets: seq<Bucket>): nat {
    if buckets == [] then 0 else buckets[0].count + Uses(buckets[1..])
  }

  lemma {:induction false} UsesOfAdd(buckets: seq<Bucket>, r: Reaction)
    ensures Uses(AddReaction(buckets, r)) == Uses(buckets) + 1
  {
    if buckets == [] {
    } else if buckets[0].emoji == r.emoji {
      assert ([Plus(buckets[0], r)] + buckets[1..])[1..] == buckets[1..];
    } else {
      UsesOfAdd(buckets[1..], r);
      assert ([buckets[0]] + AddReaction(buckets[1..], r))[1..] == AddReaction(buckets[1..], r);
    }
  }

  /** Grouping loses no reaction and counts none twice. */
  lemma {:induction false} GroupingConserves(rows: seq<Reaction>)
    ensures Uses(Grouped(rows)) == |rows|
  {
    if rows != [] {
      var n := |rows| - 1;
      GroupingConserves(rows[..n]);
      assert rows == rows[..n] + [rows[n]];
      GroupedSnoc(rows[..n], rows[n]);
      UsesOfAdd(Grouped(rows[..n]), rows[n]);
    }
  }

  /** The text an excerpt is made of: of a post with a surface the first line, else all of it. */
  predicate Excerpted(p: Post, line: string) {
    var whole := Strip(if p.message.Some? then p.message.value else "");
    if p.ui.Some? then LineStart(whole, line) else line == whole
  }

  /** A text of 140 characters stands as it is; of a longer one 139 are kept, without blanks at their end. */
  lemma ExcerptIs(p: Post) returns (line: string, kept: string, blanks: string)
    ensures Excerpted(p, line)
    ensures |line| <= 140 ==> Excerpt(p) == line
    ensures |line| > 140 ==>
      && line[..139] == kept + blanks && AllSpace(blanks) && (kept != "" ==> !PySpace(kept[|kept| - 1]))
      && Excerpt(p) == kept + "\U{2026}"
  {
    var whole := Strip(if p.message.Some? then p.message.value else "");
    PartitionStarts(whole);
    line := if p.ui.Some? then Partition(whole, '\n').0 else whole;
    kept, blanks := "", "";
    if |line| > 140 {
      kept := RStrip(line[..139]);
      blanks := RStripIs(line[..139]);
      RStripIsPrefix(line[..139]);
    }
  }

  lemma KeptFits(line: string, whole: string, kept: string, blanks: string)
    requires line <= whole && |line| > 140 && line[..139] == kept + blanks
    ensures |kept| <= 139 && kept <= whole
  {
    assert kept == line[..139][..|kept|] == whole[..|kept|];
  }

  /** The excerpt fits its limit, and is the stripped message's start, marked when cut. */
  lemma ExcerptFits(p: Post)
    ensures |Excerpt(p)| <= EXCERPT_LIMIT
    ensures
      var whole := Strip(if p.message.Some? then p.message.value else "");
      || Excerpt(p) <= whole
      || (Excerpt(p) != "" && Excerpt(p)[|Excerpt(p)| - 1] == '\U{2026}' && Excerpt(p)[..|Excerpt(p)| - 1] <= whole)
  {
    var whole := Strip(if p.message.Some? then p.message.value else "");
    var line, kept, blanks := ExcerptIs(p);
    if |line| > 140 {
      KeptFits(line, whole, kept, blanks);
      assert Excerpt(p)[..|Excerpt(p)| - 1] == kept;
    }
  }

  /** An agent goes by its profile's name, else its nickname, else its id; empty names do not count. */
  lemma AgentName(db: Database, p: Post)
    requires p.human.None? && p.agent.Some? && p.agent.value in db.agents
    ensures var a := db.agents[p.agent.value];
      IdentityOf(db, p) == Identity(
        if a.profileName.Some? && a.profileName.value != "" then a.profileName
        else if a.nickname.Some? && a.nickname.value != "" then a.nickname
        else p.agent, Some(a.avatar))
  {
  }
}
