/**
 * Concurrent imports into one report: every statement is one atomic step, and the requests interleave freely. A look-up
 * of keys or of links is as many statements as it takes, each for any part of what is still to be asked.
 */
module ReportImport {
  import opened Wrappers
  import opened Observables
  import Sorting

  /** The observable ids by key, and the report's links: whether each is attributed to an import. */
  datatype Db = Db(obs: map<Key, nat>, links: map<nat, bool>)

  datatype Pc = Finding | Inserting | Refinding | Screening | Linking | LinkInserting | Filling | Finished

  /** What one request holds between its statements: pending is what its look-up has still to ask, seen the links it was told of. */
  datatype Request = Request(
    items: seq<Key>, hideRed: bool, pc: Pc, pending: set<Key>, found: map<Key, nat>, proposed: map<Key, nat>, keys: seq<Key>,
    seen: map<nat, bool>, attributed: set<nat>, newLinks: seq<nat>, toFill: seq<nat>)

  function NewRequest(items: seq<Key>, hideRed: bool): Request {
    Request(items, hideRed, Finding, Members(items), map[], map[], [], map[], {}, [], [])
  }

  function Members(keys: seq<Key>): set<Key> {
    set k | k in keys
  }

  // ── The statements of one request ─────────────────────────────────────

  function Lookup(db: Db, keys: set<Key>): map<Key, nat> {
    map k | k in keys && k in db.obs :: db.obs[k]
  }

  function Missing(q: Request): set<Key> {
    set k | k in q.items && k !in q.found
  }

  /** One SELECT of the first look-up, for a part of the keys. */
  function Find(db: Db, q: Request, chunk: set<Key>): Request {
    var found := q.found + Lookup(db, q.pending * chunk);
    var pending := q.pending - chunk;
    q.(found := found, pending := pending,
       pc := if pending != {} then Finding else if forall k :: k in q.items ==> k in found then Screening else Inserting)
  }

  /** Rows for the missing keys under proposed ids; a key that exists by now keeps its row. */
  function InsertMissing(db: Db, proposed: map<Key, nat>): Db {
    db.(obs := proposed + db.obs)
  }

  function AfterInsert(q: Request, proposed: map<Key, nat>): Request {
    q.(proposed := proposed, pending := Missing(q), pc := Refinding)
  }

  /** One SELECT of the second look-up, which asks for the missing keys. */
  function Refind(db: Db, q: Request, chunk: set<Key>): Request {
    var pending := q.pending - chunk;
    q.(found := q.found + Lookup(db, q.pending * chunk), pending := pending, pc := if pending != {} then Refinding else Screening)
  }

  function Unhidden(items: seq<Key>, found: map<Key, nat>, red: set<nat>): seq<Key> {
    if items == [] then []
    else
      var k := items[|items| - 1];
      Unhidden(items[..|items| - 1], found, red) + (if k in found && found[k] in red then [] else [k])
  }

  /** For API-key callers, items whose observable is RED are dropped. */
  function Screen(q: Request, red: set<nat>): Request {
    var keys := if q.hideRed then Unhidden(q.items, q.found, red) else q.items;
    q.(keys := keys, pending := Members(keys), seen := map[], pc := Linking)
  }

  /** A link that is absent (None), manual (Some(false)) or attributed (Some(true)). */
  function StateIn(links: map<nat, bool>, id: nat): Option<bool> {
    if id in links then Some(links[id]) else None
  }

  function LinkState(db: Db, id: nat): Option<bool> {
    StateIn(db.links, id)
  }

  /** The ids of the keys whose link was seen in this state. */
  function IdsSeen(q: Request, keys: seq<Key>, state: Option<bool>): seq<nat> {
    if keys == [] then []
    else
      var k := keys[|keys| - 1];
      var rest := IdsSeen(q, keys[..|keys| - 1], state);
      if k in q.found && StateIn(q.seen, q.found[k]) == state then rest + [q.found[k]] else rest
  }

  /** The links of some of the request's keys, as they are now. */
  function LinksOf(db: Db, q: Request, keys: set<Key>): map<nat, bool> {
    map id | id in (set k | k in keys && k in q.found :: q.found[k]) && id in db.links :: db.links[id]
  }

  /** One SELECT of the look-up of links; after the last one the snapshot decides what to insert and what to fill. */
  function FindLinks(db: Db, q: Request, chunk: set<Key>): Request {
    var q' := q.(seen := q.seen + LinksOf(db, q, q.pending * chunk), pending := q.pending - chunk);
    if q'.pending != {} then q'
    else
      var absent := IdsSeen(q', q.keys, None);
      q'.(newLinks := absent, toFill := IdsSeen(q', q.keys, Some(false)), pc := if absent == [] then Filling else LinkInserting)
  }

  function Inserted(db: Db, ids: seq<nat>): set<nat> {
    set id | id in ids && id !in db.links
  }

  function Lost(ids: seq<nat>, won: set<nat>): seq<nat> {
    if ids == [] then []
    else Lost(ids[..|ids| - 1], won) + (if ids[|ids| - 1] in won then [] else [ids[|ids| - 1]])
  }

  /** INSERT … ON CONFLICT DO NOTHING RETURNING: what it returns is attributed, the rest lost the race. */
  function InsertLinksDb(db: Db, q: Request): Db {
    db.(links := map id | id in db.links.Keys + Inserted(db, q.newLinks) :: if id in db.links then db.links[id] else true)
  }

  function InsertLinks(db: Db, q: Request): Request {
    var won := Inserted(db, q.newLinks);
    q.(attributed := q.attributed + won, toFill := q.toFill + Lost(q.newLinks, won), newLinks := [], pc := Filling)
  }

  predicate Fills(db: Db, id: nat) {
    id in db.links && !db.links[id]
  }

  /** UPDATE … WHERE imported_at IS NULL RETURNING, for the next link to fill. */
  function FillDb(db: Db, q: Request): Db {
    if q.toFill != [] && Fills(db, q.toFill[0]) then db.(links := db.links[q.toFill[0] := true]) else db
  }

  function Fill(db: Db, q: Request): Request {
    if q.toFill == [] then q.(pc := Finished)
    else
      var id := q.toFill[0];
      q.(attributed := if Fills(db, id) then q.attributed + {id} else q.attributed, toFill := q.toFill[1..])
  }

  // ── The system ────────────────────────────────────────────────────────

  /** winner records, for every link attributed since the start, the request that did it. */
  datatype System = System(db: Db, requests: map<nat, Request>, usedIds: set<nat>, winner: map<nat, nat>)

  /** Another request arrives, a request runs its next statement, or someone else adds an observable or links one by hand. */
  datatype Event =
    | Arrive(r: nat, items: seq<Key>, hideRed: bool)
    | Statement(r: nat, chunk: set<Key>, proposed: map<Key, nat>, red: set<nat>)
    | AddObservable(key: Key, id: nat)
    | LinkByHand(id: nat)

  /** The uuids are new, and one per missing key. */
  ghost predicate FreshIds(s: System, q: Request, proposed: map<Key, nat>) {
    && proposed.Keys == Missing(q) && proposed.Values !! s.usedIds
    && forall a, b :: a in proposed && b in proposed && a != b ==> proposed[a] != proposed[b]
  }

  function DbAfter(db: Db, q: Request, proposed: map<Key, nat>): Db {
    match q.pc
    case Inserting => InsertMissing(db, proposed)
    case LinkInserting => InsertLinksDb(db, q)
    case Filling => FillDb(db, q)
    case _ => db
  }

  function RequestAfter(db: Db, q: Request, chunk: set<Key>, proposed: map<Key, nat>, red: set<nat>): Request {
    match q.pc
    case Finding => Find(db, q, chunk)
    case Inserting => AfterInsert(q, proposed)
    case Refinding => Refind(db, q, chunk)
    case Screening => Screen(q, red)
    case Linking => FindLinks(db, q, chunk)
    case LinkInserting => InsertLinks(db, q)
    case Filling => Fill(db, q)
    case Finished => q
  }

  /** The links a statement attributes, credited to its request. */
  function Credit(winner: map<nat, nat>, won: set<nat>, r: nat): map<nat, nat> {
    map id | id in winner.Keys + won :: if id in won then r else winner[id]
  }

  function RunStatement(s: System, r: nat, chunk: set<Key>, proposed: map<Key, nat>, red: set<nat>): System
    requires r in s.requests
  {
    var q := s.requests[r];
    var q' := RequestAfter(s.db, q, chunk, proposed, red);
    System(DbAfter(s.db, q, proposed), s.requests[r := q'],
      if q.pc == Inserting then s.usedIds + proposed.Values else s.usedIds,
      Credit(s.winner, q'.attributed - q.attributed, r))
  }

  /** The schema rejects repeated items. */
  ghost predicate Enabled(s: System, e: Event) {
    match e
    case Arrive(r, items, _) => r !in s.requests && Sorting.Distinct(items)
    case Statement(r, _, proposed, _) => r in s.requests && (s.requests[r].pc == Inserting ==> FreshIds(s, s.requests[r], proposed))
    case AddObservable(key, id) => key !in s.db.obs && id !in s.usedIds
    case LinkByHand(id) => id !in s.db.links
  }

  function Next(s: System, e: Event): System {
    match e
    case Arrive(r, items, hideRed) => s.(requests := s.requests[r := NewRequest(items, hideRed)])
    case Statement(r, chunk, proposed, red) => if r in s.requests then RunStatement(s, r, chunk, proposed, red) else s
    case AddObservable(key, id) => s.(db := s.db.(obs := s.db.obs[key := id]), usedIds := s.usedIds + {id})
    case LinkByHand(id) => s.(db := s.db.(links := s.db.links[id := false]))
  }

  function Run(s: System, events: seq<Event>): System {
    if events == [] then s else Next(Run(s, events[..|events| - 1]), events[|events| - 1])
  }

  ghost predicate AllEnabled(s: System, events: seq<Event>) {
    forall i :: 0 <= i < |events| ==> Enabled(Run(s, events[..i]), events[i])
  }

  // ── What every interleaving keeps ─────────────────────────────────────

  predicate IsAttributed(db: Db, id: nat) {
    LinkState(db, id) == Some(true)
  }

  /** Rows stay, links stay, and attribution is never taken back. */
  ghost predicate Grows(db: Db, next: Db) {
    && (forall k :: k in db.obs ==> k in next.obs && next.obs[k] == db.obs[k])
    && (forall id :: id in db.links ==> id in next.links && (db.links[id] ==> next.links[id]))
  }

  predicate PastScreening(pc: Pc) {
    pc == Linking || pc == LinkInserting || pc == Filling || pc == Finished
  }

  /** Where the id of an item to import stands, from the look-up of links on. */
  ghost predicate OnItsWay(db: Db, q: Request, id: nat) {
    match q.pc
    case LinkInserting => IsAttributed(db, id) || (id in db.links && id in q.toFill) || id in q.newLinks
    case Filling => IsAttributed(db, id) || (id in db.links && id in q.toFill)
    case Finished => IsAttributed(db, id)
    case _ => true
  }

  ghost predicate KeyOnItsWay(db: Db, q: Request, k: Key) {
    k in q.items && k in q.found && OnItsWay(db, q, q.found[k])
  }

  ghost predicate FoundOk(db: Db, q: Request) {
    && (forall k :: k in q.found ==> k in db.obs && db.obs[k] == q.found[k] && k in q.items)
    && (q.pc == Screening || PastScreening(q.pc) ==> forall k :: k in q.items ==> k in q.found)
    && (!PastScreening(q.pc) || q.pc == Linking ==> q.newLinks == [] && q.toFill == [] && q.attributed == {})
    && (q.pc == Refinding ==> forall k :: k in q.items ==> k in db.obs && (k in q.found || k in q.pending))
    && (forall k :: k in q.pending ==> k in q.items)
    && (forall id :: id in q.seen ==> id in db.links && (q.seen[id] ==> db.links[id]))
  }

  /** The id of one of the keys the request imports. */
  predicate IsKeyId(q: Request, id: nat) {
    exists k :: k in q.keys && k in q.found && q.found[k] == id
  }

  ghost predicate RequestOk(db: Db, q: Request) {
    && Sorting.Distinct(q.items) && FoundOk(db, q)
    && (PastScreening(q.pc) ==> Sorting.Distinct(q.keys) && |q.keys| <= |q.items| && forall k :: k in q.keys ==> KeyOnItsWay(db, q, k))
    && (forall id :: id in q.newLinks || id in q.toFill || id in q.attributed ==> IsKeyId(q, id))
    && (q.pc != LinkInserting ==> q.newLinks == [])
    && (q.pc == Finished ==> q.toFill == [])
  }

  lemma GrownRequestOk(db: Db, next: Db, q: Request)
    requires RequestOk(db, q) && Grows(db, next)
    ensures RequestOk(next, q)
  {
    if PastScreening(q.pc) {
      forall k | k in q.keys
        ensures KeyOnItsWay(next, q, k)
      {
        assert KeyOnItsWay(db, q, k);
      }
    }
  }

  lemma {:induction false} UnhiddenSpec(items: seq<Key>, found: map<Key, nat>, red: set<nat>)
    requires Sorting.Distinct(items)
    ensures Sorting.Distinct(Unhidden(items, found, red)) && |Unhidden(items, found, red)| <= |items|
    ensures forall k :: k in Unhidden(items, found, red) <==> k in items && !(k in found && found[k] in red)
  {
    if items != [] {
      UnhiddenSpec(items[..|items| - 1], found, red);
      assert items == items[..|items| - 1] + [items[|items| - 1]];
    }
  }

  lemma {:induction false} IdsSeenSpec(q: Request, keys: seq<Key>, state: Option<bool>, k: Key)
    requires k in keys && k in q.found && StateIn(q.seen, q.found[k]) == state
    ensures q.found[k] in IdsSeen(q, keys, state)
  {
    if k != keys[|keys| - 1] {
      IdsSeenSpec(q, keys[..|keys| - 1], state, k);
    }
  }

  lemma {:induction false} IdsSeenMembers(q: Request, keys: seq<Key>, state: Option<bool>)
    requires forall k :: k in keys ==> k in q.keys
    ensures forall id :: id in IdsSeen(q, keys, state) ==> IsKeyId(q, id)
  {
    if keys != [] {
      assert keys[|keys| - 1] in keys;
      IdsSeenMembers(q, keys[..|keys| - 1], state);
    }
  }

  lemma {:induction false} LostSpec(ids: seq<nat>, won: set<nat>)
    ensures forall id :: id in Lost(ids, won) <==> id in ids && id !in won
  {
    if ids != [] {
      LostSpec(ids[..|ids| - 1], won);
      assert ids == ids[..|ids| - 1] + [ids[|ids| - 1]];
    }
  }

  lemma ScreenKeeps(db: Db, q: Request, red: set<nat>)
    requires RequestOk(db, q) && q.pc == Screening
    ensures RequestOk(db, Screen(q, red))
  {
    UnhiddenSpec(q.items, q.found, red);
  }

  lemma FindLinksKeeps(db: Db, q: Request, chunk: set<Key>)
    requires RequestOk(db, q) && q.pc == Linking
    ensures RequestOk(db, FindLinks(db, q, chunk))
  {
    var q' := q.(seen := q.seen + LinksOf(db, q, q.pending * chunk), pending := q.pending - chunk);
    SeenMoreKeeps(db, q, q');
    if q'.pending == {} {
      SnapshotKeeps(db, q', FindLinks(db, q, chunk));
    }
  }

  lemma SeenMoreKeeps(db: Db, q: Request, q': Request)
    requires RequestOk(db, q) && q.pc == Linking && q' == q.(seen := q'.seen, pending := q'.pending)
    requires q'.pending <= q.pending
    requires forall id :: id in q'.seen ==> id in db.links && (q'.seen[id] ==> db.links[id])
    ensures RequestOk(db, q')
  {
    forall k | k in q'.keys
      ensures KeyOnItsWay(db, q', k)
    {
      assert KeyOnItsWay(db, q, k);
    }
  }

  /** What the snapshot shows may be old by now, but a link it shows is still there and an attributed one still is. */
  lemma SnapshotKeeps(db: Db, q: Request, q': Request)
    requires RequestOk(db, q) && q.pc == Linking
    requires q' == q.(newLinks := IdsSeen(q, q.keys, None), toFill := IdsSeen(q, q.keys, Some(false)), pc := q'.pc)
    requires q'.pc == if q'.newLinks == [] then Filling else LinkInserting
    ensures RequestOk(db, q')
  {
    IdsSeenMembers(q, q.keys, None);
    IdsSeenMembers(q, q.keys, Some(false));
    assert forall id :: IsKeyId(q, id) ==> IsKeyId(q', id);
    forall k | k in q'.keys
      ensures KeyOnItsWay(db, q', k)
    {
      assert KeyOnItsWay(db, q, k);
      if q.found[k] !in q.seen {
        IdsSeenSpec(q, q.keys, None, k);
      } else if !q.seen[q.found[k]] {
        IdsSeenSpec(q, q.keys, Some(false), k);
      }
    }
  }

  lemma InsertLinksKeeps(db: Db, q: Request)
    requires RequestOk(db, q) && q.pc == LinkInserting
    ensures Grows(db, InsertLinksDb(db, q)) && RequestOk(InsertLinksDb(db, q), InsertLinks(db, q))
  {
    var next, q' := InsertLinksDb(db, q), InsertLinks(db, q);
    LostSpec(q.newLinks, Inserted(db, q.newLinks));
    assert forall id :: IsKeyId(q, id) ==> IsKeyId(q', id);
    forall k | k in q'.keys
      ensures KeyOnItsWay(next, q', k)
    {
      assert KeyOnItsWay(db, q, k);
    }
  }

  lemma FillKeeps(db: Db, q: Request)
    requires RequestOk(db, q) && q.pc == Filling
    ensures Grows(db, FillDb(db, q)) && RequestOk(FillDb(db, q), Fill(db, q))
  {
    var next, q' := FillDb(db, q), Fill(db, q);
    assert forall id :: IsKeyId(q, id) ==> IsKeyId(q', id);
    forall k | k in q'.keys
      ensures KeyOnItsWay(next, q', k)
    {
      assert KeyOnItsWay(db, q, k);
    }
    FilledFound(db, next, q, q');
  }

  lemma FilledFound(db: Db, next: Db, q: Request, q': Request)
    requires FoundOk(db, q) && Grows(db, next) && q.pc == Filling && (q'.pc == Filling || q'.pc == Finished)
    requires q' == q.(attributed := q'.attributed, toFill := q'.toFill, pc := q'.pc)
    ensures FoundOk(next, q')
  {
  }

  lemma FindKeeps(db: Db, q: Request, chunk: set<Key>)
    requires RequestOk(db, q) && q.pc == Finding
    ensures RequestOk(db, Find(db, q, chunk))
  {
    var q' := Find(db, q, chunk);
    assert forall k :: k in q'.found ==> k in q.found || k in q.pending * chunk;
  }

  lemma InsertKeeps(db: Db, q: Request, proposed: map<Key, nat>)
    requires RequestOk(db, q) && q.pc == Inserting && proposed.Keys == Missing(q)
    ensures Grows(db, InsertMissing(db, proposed))
    ensures RequestOk(InsertMissing(db, proposed), AfterInsert(q, proposed))
  {
    var next := InsertMissing(db, proposed);
    forall k | k in q.items
      ensures k in next.obs && (k in q.found || k in Missing(q))
    {
      assert k in q.found || k in proposed.Keys;
    }
  }

  lemma RefindKeeps(db: Db, q: Request, chunk: set<Key>)
    requires RequestOk(db, q) && q.pc == Refinding
    ensures RequestOk(db, Refind(db, q, chunk))
  {
    var q' := Refind(db, q, chunk);
    forall k | k in q.items
      ensures k in q'.found || k in q'.pending
    {
      assert k in q.found || k in q.pending;
      assert k in q.pending && k in chunk ==> k in Lookup(db, q.pending * chunk);
    }
  }

  /** One statement keeps its own request in order and only lets the database grow. */
  lemma StatementKeeps(db: Db, q: Request, chunk: set<Key>, proposed: map<Key, nat>, red: set<nat>)
    requires RequestOk(db, q) && (q.pc == Inserting ==> proposed.Keys == Missing(q))
    ensures Grows(db, DbAfter(db, q, proposed)) && RequestOk(DbAfter(db, q, proposed), RequestAfter(db, q, chunk, proposed, red))
  {
    match q.pc
    case Finding => FindKeeps(db, q, chunk);
    case Inserting => InsertKeeps(db, q, proposed);
    case Refinding => RefindKeeps(db, q, chunk);
    case Screening => ScreenKeeps(db, q, red);
    case Linking => FindLinksKeeps(db, q, chunk);
    case LinkInserting => InsertLinksKeeps(db, q);
    case Filling => FillKeeps(db, q);
    case Finished =>
  }

  /** The statement attributes exactly the links that were not attributed and now are. */
  lemma WonByStatement(db: Db, q: Request, chunk: set<Key>, proposed: map<Key, nat>, red: set<nat>, id: nat)
    ensures id in RequestAfter(db, q, chunk, proposed, red).attributed - q.attributed ==>
      !IsAttributed(db, id) && IsAttributed(DbAfter(db, q, proposed), id)
    ensures !IsAttributed(db, id) && IsAttributed(DbAfter(db, q, proposed), id) ==>
      id in RequestAfter(db, q, chunk, proposed, red).attributed
    ensures q.attributed <= RequestAfter(db, q, chunk, proposed, red).attributed
    ensures IsAttributed(db, id) ==> IsAttributed(DbAfter(db, q, proposed), id)
  {
    match q.pc
    case LinkInserting => WonByInsert(db, q, id);
    case Filling => WonByFill(db, q, id);
    case _ => WritesNoLink(db, q, chunk, proposed, red);
  }

  lemma WritesNoLink(db: Db, q: Request, chunk: set<Key>, proposed: map<Key, nat>, red: set<nat>)
    requires q.pc != LinkInserting && q.pc != Filling
    ensures DbAfter(db, q, proposed).links == db.links && RequestAfter(db, q, chunk, proposed, red).attributed == q.attributed
  {
  }

  lemma ProposedAfter(db: Db, q: Request, chunk: set<Key>, proposed: map<Key, nat>, red: set<nat>)
    ensures RequestAfter(db, q, chunk, proposed, red).proposed == if q.pc == Inserting then proposed else q.proposed
  {
  }

  lemma WonByInsert(db: Db, q: Request, id: nat)
    ensures IsAttributed(InsertLinksDb(db, q), id) <==> IsAttributed(db, id) || id in Inserted(db, q.newLinks)
    ensures id in Inserted(db, q.newLinks) ==> !IsAttributed(db, id)
  {
  }

  lemma WonByFill(db: Db, q: Request, id: nat)
    ensures IsAttributed(FillDb(db, q), id) <==> IsAttributed(db, id) || (q.toFill != [] && id == q.toFill[0] && Fills(db, id))
  {
  }

  /** Every attributed link was so at the start or has one winner; a request's attributed set is what it won. */
  ghost predicate CreditOk(start: Db, s: System) {
    forall id :: CreditAt(start, s, id)
  }

  /** The credit for one link. */
  ghost predicate CreditAt(start: Db, s: System, id: nat) {
    && (id in s.winner ==> IsAttributed(s.db, id) && !IsAttributed(start, id) && s.winner[id] in s.requests)
    && (IsAttributed(s.db, id) ==> IsAttributed(start, id) || id in s.winner)
    && (forall r :: r in s.requests ==> (id in s.requests[r].attributed <==> id in s.winner && s.winner[id] == r))
  }

  /** Ids are unique per row and per proposal. */
  ghost predicate IdsOk(s: System) {
    && (forall k :: k in s.db.obs ==> s.db.obs[k] in s.usedIds)
    && (forall j, k :: j in s.db.obs && k in s.db.obs && s.db.obs[j] == s.db.obs[k] ==> j == k)
    && (forall r, k :: r in s.requests && k in s.requests[r].proposed ==> s.requests[r].proposed[k] in s.usedIds)
    && ProposalsApart(s)
  }

  ghost predicate ProposalsApart(s: System) {
    forall q, r, j, k :: ProposesBoth(s, q, r, j, k) ==> q == r && j == k
  }

  predicate ProposesBoth(s: System, q: nat, r: nat, j: Key, k: Key) {
    && q in s.requests && r in s.requests && j in s.requests[q].proposed && k in s.requests[r].proposed
    && s.requests[q].proposed[j] == s.requests[r].proposed[k]
  }

  ghost predicate RequestsOk(s: System) {
    forall r :: r in s.requests ==> RequestOk(s.db, s.requests[r])
  }

  ghost predicate Inv(start: Db, s: System) {
    RequestsOk(s) && CreditOk(start, s) && IdsOk(s) && Grows(start, s.db)
  }

  lemma GrowKeepsRequests(s: System, t: System)
    requires RequestsOk(s) && Grows(s.db, t.db)
    requires forall r :: r in t.requests ==> r in s.requests && t.requests[r] == s.requests[r]
    ensures RequestsOk(t)
  {
    forall r | r in t.requests
      ensures RequestOk(t.db, t.requests[r])
    {
      GrownRequestOk(s.db, t.db, s.requests[r]);
    }
  }

  lemma ArriveKeeps(start: Db, s: System, r: nat, items: seq<Key>, hideRed: bool)
    requires Inv(start, s) && r !in s.requests && Sorting.Distinct(items)
    ensures Inv(start, Next(s, Arrive(r, items, hideRed)))
  {
    var t := Next(s, Arrive(r, items, hideRed));
    assert RequestOk(t.db, NewRequest(items, hideRed));
    forall o | o in t.requests
      ensures RequestOk(t.db, t.requests[o])
    {
    }
    ArriveIds(s, r, items, hideRed);
    CreditArrive(start, s, r, items, hideRed);
  }

  lemma CreditArrive(start: Db, s: System, r: nat, items: seq<Key>, hideRed: bool)
    requires CreditOk(start, s) && r !in s.requests
    ensures CreditOk(start, Next(s, Arrive(r, items, hideRed)))
  {
    var t := Next(s, Arrive(r, items, hideRed));
    forall id
      ensures CreditAt(start, t, id)
    {
      assert CreditAt(start, s, id);
    }
  }

  lemma AddObservableKeeps(start: Db, s: System, key: Key, id: nat)
    requires Inv(start, s) && key !in s.db.obs && id !in s.usedIds
    ensures Inv(start, Next(s, AddObservable(key, id)))
  {
    var t := Next(s, AddObservable(key, id));
    GrowKeepsRequests(s, t);
    CreditSameLinks(start, s, t);
    ProposalsStay(s, t);
  }

  lemma LinkByHandKeeps(start: Db, s: System, id: nat)
    requires Inv(start, s) && id !in s.db.links
    ensures Inv(start, Next(s, LinkByHand(id)))
  {
    var t := Next(s, LinkByHand(id));
    GrowKeepsRequests(s, t);
    CreditSameLinks(start, s, t);
    ProposalsStay(s, t);
  }

  lemma CreditSameLinks(start: Db, s: System, t: System)
    requires CreditOk(start, s) && t.requests == s.requests && t.winner == s.winner
    requires forall id :: IsAttributed(t.db, id) <==> IsAttributed(s.db, id)
    ensures CreditOk(start, t)
  {
    forall id
      ensures CreditAt(start, t, id)
    {
      assert CreditAt(start, s, id);
    }
  }

  lemma ProposalsStay(s: System, t: System)
    requires IdsOk(s) && t.requests == s.requests
    ensures ProposalsApart(t)
  {
    forall q, r, j, k | ProposesBoth(t, q, r, j, k)
      ensures q == r && j == k
    {
      assert ProposesBoth(s, q, r, j, k);
    }
  }

  lemma OthersKeep(start: Db, s: System, e: Event)
    requires Inv(start, s) && Enabled(s, e) && !e.Statement?
    ensures Inv(start, Next(s, e))
  {
    match e
    case Arrive(r, items, hideRed) => ArriveKeeps(start, s, r, items, hideRed);
    case AddObservable(key, id) => AddObservableKeeps(start, s, key, id);
    case LinkByHand(id) => LinkByHandKeeps(start, s, id);
  }

  lemma ArriveIds(s: System, r: nat, items: seq<Key>, hideRed: bool)
    requires IdsOk(s) && r !in s.requests
    ensures IdsOk(Next(s, Arrive(r, items, hideRed)))
  {
    var t := Next(s, Arrive(r, items, hideRed));
    forall p, q, j, k | ProposesBoth(t, p, q, j, k)
      ensures p == q && j == k
    {
      assert ProposesBoth(s, p, q, j, k);
    }
  }

  lemma StatementIds(s: System, r: nat, chunk: set<Key>, proposed: map<Key, nat>, red: set<nat>)
    requires IdsOk(s) && RequestsOk(s) && r in s.requests && (s.requests[r].pc == Inserting ==> FreshIds(s, s.requests[r], proposed))
    ensures IdsOk(RunStatement(s, r, chunk, proposed, red))
  {
    var q := s.requests[r];
    ProposedAfter(s.db, q, chunk, proposed, red);
    if q.pc == Inserting {
      InsertIds(s, r, proposed, RequestAfter(s.db, q, chunk, proposed, red), RunStatement(s, r, chunk, proposed, red).winner);
    } else {
      KeepIds(s, r, DbAfter(s.db, q, proposed), RequestAfter(s.db, q, chunk, proposed, red),
        RunStatement(s, r, chunk, proposed, red).winner);
    }
  }

  lemma InsertIds(s: System, r: nat, proposed: map<Key, nat>, q': Request, winner: map<nat, nat>)
    requires IdsOk(s) && r in s.requests && FreshIds(s, s.requests[r], proposed) && q'.proposed == proposed
    ensures IdsOk(System(InsertMissing(s.db, proposed), s.requests[r := q'], s.usedIds + proposed.Values, winner))
  {
    var t := System(InsertMissing(s.db, proposed), s.requests[r := q'], s.usedIds + proposed.Values, winner);
    forall p, q, j, k | ProposesBoth(t, p, q, j, k)
      ensures p == q && j == k
    {
      if p != r && q != r {
        assert ProposesBoth(s, p, q, j, k);
      }
    }
  }

  lemma KeepIds(s: System, r: nat, db: Db, q': Request, winner: map<nat, nat>)
    requires IdsOk(s) && r in s.requests && q'.proposed == s.requests[r].proposed && db.obs == s.db.obs
    ensures IdsOk(System(db, s.requests[r := q'], s.usedIds, winner))
  {
    var t := System(db, s.requests[r := q'], s.usedIds, winner);
    forall p, q, j, k | ProposesBoth(t, p, q, j, k)
      ensures p == q && j == k
    {
      assert ProposesBoth(s, p, q, j, k);
    }
  }

  lemma CreditStep(start: Db, s: System, r: nat, chunk: set<Key>, proposed: map<Key, nat>, red: set<nat>, id: nat)
    requires CreditAt(start, s, id) && Grows(start, s.db) && r in s.requests
    ensures CreditAt(start, RunStatement(s, r, chunk, proposed, red), id)
  {
    WonByStatement(s.db, s.requests[r], chunk, proposed, red, id);
    var q, q' := s.requests[r], RequestAfter(s.db, s.requests[r], chunk, proposed, red);
    var next := DbAfter(s.db, q, proposed);
    CreditStepOf(start, s, r, next, q', RunStatement(s, r, chunk, proposed, red).usedIds, id);
  }

  /** The same for any statement known only by what it attributes. */
  lemma CreditStepOf(start: Db, s: System, r: nat, next: Db, q': Request, used: set<nat>, id: nat)
    requires CreditAt(start, s, id) && Grows(start, s.db) && r in s.requests
    requires s.requests[r].attributed <= q'.attributed && (IsAttributed(s.db, id) ==> IsAttributed(next, id))
    requires id in q'.attributed - s.requests[r].attributed ==> !IsAttributed(s.db, id) && IsAttributed(next, id)
    requires !IsAttributed(s.db, id) && IsAttributed(next, id) ==> id in q'.attributed
    ensures CreditAt(start,
      System(next, s.requests[r := q'], used, Credit(s.winner, q'.attributed - s.requests[r].attributed, r)), id)
  {
    assert IsAttributed(start, id) ==> IsAttributed(s.db, id);
  }

  lemma StatementCredit(start: Db, s: System, r: nat, chunk: set<Key>, proposed: map<Key, nat>, red: set<nat>)
    requires CreditOk(start, s) && Grows(start, s.db) && r in s.requests
    ensures CreditOk(start, RunStatement(s, r, chunk, proposed, red))
  {
    forall id
      ensures CreditAt(start, RunStatement(s, r, chunk, proposed, red), id)
    {
      assert CreditAt(start, s, id);
      CreditStep(start, s, r, chunk, proposed, red, id);
    }
  }

  /** Every statement of every request keeps the invariant. */
  lemma StatementInv(start: Db, s: System, r: nat, chunk: set<Key>, proposed: map<Key, nat>, red: set<nat>)
    requires Inv(start, s) && r in s.requests && (s.requests[r].pc == Inserting ==> FreshIds(s, s.requests[r], proposed))
    ensures Inv(start, RunStatement(s, r, chunk, proposed, red))
  {
    var t := RunStatement(s, r, chunk, proposed, red);
    StatementKeeps(s.db, s.requests[r], chunk, proposed, red);
    forall o | o in t.requests
      ensures RequestOk(t.db, t.requests[o])
    {
      if o != r {
        GrownRequestOk(s.db, t.db, s.requests[o]);
      }
    }
    StatementCredit(start, s, r, chunk, proposed, red);
    StatementIds(s, r, chunk, proposed, red);
  }

  ghost predicate Initial(s: System) {
    s.requests == map[] && s.winner == map[] && IdsOk(s)
  }

  lemma {:induction false} RunInv(s: System, events: seq<Event>)
    requires Initial(s) && AllEnabled(s, events)
    ensures Inv(s.db, Run(s, events))
  {
    if events != [] {
      var front, last := events[..|events| - 1], events[|events| - 1];
      forall i | 0 <= i < |front|
        ensures Enabled(Run(s, front[..i]), front[i])
      {
        assert front[..i] == events[..i];
      }
      RunInv(s, front);
      assert Enabled(Run(s, events[..|events| - 1]), last);
      if last.Statement? {
        StatementInv(s.db, Run(s, front), last.r, last.chunk, last.proposed, last.red);
      } else {
        OthersKeep(s.db, Run(s, front), last);
      }
    }
  }

  // ── What the requests report ──────────────────────────────────────────

  datatype Verdict = Created | AttributedExisting | AlreadyAttributed

  /** How a request counts one of its keys. */
  function VerdictOn(q: Request, k: Key): Verdict {
    if k !in q.found || q.found[k] !in q.attributed then AlreadyAttributed
    else if k in q.proposed && q.proposed[k] == q.found[k] then Created
    else AttributedExisting
  }

  /** The request's answer says it created the observable. */
  predicate ReportsCreated(q: Request, k: Key) {
    k in q.found && k in q.proposed && q.proposed[k] == q.found[k]
  }

  /** No request attributed it if it was attributed at the start; otherwise exactly one request did. */
  ghost predicate AttributedOnce(start: Db, t: System, id: nat) {
    if IsAttributed(start, id) then forall o :: o in t.requests ==> id !in t.requests[o].attributed
    else exists o :: AttributedBy(t, o, id) && forall p :: AttributedBy(t, p, id) ==> p == o
  }

  predicate AttributedBy(t: System, o: nat, id: nat) {
    o in t.requests && id in t.requests[o].attributed
  }

  lemma FinishedAttributed(start: Db, t: System, r: nat, k: Key)
    requires Inv(start, t) && r in t.requests && t.requests[r].pc == Finished && k in t.requests[r].keys
    ensures k in t.requests[r].found && AttributedOnce(start, t, t.requests[r].found[k])
  {
    assert RequestOk(t.db, t.requests[r]) && KeyOnItsWay(t.db, t.requests[r], k);
    var id := t.requests[r].found[k];
    assert IsAttributed(t.db, id) && CreditAt(start, t, id);
    if !IsAttributed(start, id) {
      assert AttributedBy(t, t.winner[id], id);
    }
  }

  lemma CreatedOnce(t: System, o: nat, p: nat, k: Key)
    requires ProposalsApart(t) && o in t.requests && p in t.requests
    requires ReportsCreated(t.requests[o], k) && ReportsCreated(t.requests[p], k)
    requires t.requests[o].found[k] == t.requests[p].found[k]
    ensures o == p
  {
    assert ProposesBoth(t, o, p, k, k);
  }

  /** Under every interleaving each pair a finished request imported is attributed by exactly one request, or was before and by none;
      and no observable is reported as created by two. */
  lemma EachPairAttributedOnce(s: System, events: seq<Event>, r: nat, k: Key)
    requires Initial(s) && AllEnabled(s, events)
    requires var t := Run(s, events);
      r in t.requests && t.requests[r].pc == Finished && k in t.requests[r].keys
    ensures var t := Run(s, events);
      && k in t.requests[r].found && AttributedOnce(s.db, t, t.requests[r].found[k])
      && forall o :: o in t.requests && o != r && ReportsCreated(t.requests[o], k) ==> !ReportsCreated(t.requests[r], k)
  {
    var t := Run(s, events);
    RunInv(s, events);
    FinishedAttributed(s.db, t, r, k);
    forall o | o in t.requests && ReportsCreated(t.requests[o], k) && ReportsCreated(t.requests[r], k)
      ensures o == r
    {
      assert RequestOk(t.db, t.requests[o]) && RequestOk(t.db, t.requests[r]);
      CreatedOnce(t, o, r, k);
    }
  }

  /** The request imports the key and counts it as created or attributed. */
  ghost predicate Claims(t: System, o: nat, k: Key) {
    o in t.requests && k in t.requests[o].keys && VerdictOn(t.requests[o], k) != AlreadyAttributed
  }

  /** A key whose row was attributed at the start is claimed by no request; any other by exactly one. */
  ghost predicate ClaimedOnce(start: Db, t: System, k: Key)
    requires k in t.db.obs
  {
    if IsAttributed(start, t.db.obs[k]) then forall o :: !Claims(t, o, k)
    else exists o :: Claims(t, o, k) && forall p :: Claims(t, p, k) ==> p == o
  }

  lemma ClaimIsAttribution(start: Db, t: System, o: nat, k: Key, id: nat)
    requires Inv(start, t) && k in t.db.obs && t.db.obs[k] == id
    ensures Claims(t, o, k) <==> AttributedBy(t, o, id)
  {
    if o in t.requests {
      var q := t.requests[o];
      assert RequestOk(t.db, q);
      if id in q.attributed {
        var j :| j in q.keys && j in q.found && q.found[j] == id;
        assert t.db.obs[j] == t.db.obs[k];
      }
    }
  }

  lemma ClaimedAsAttributed(start: Db, t: System, k: Key)
    requires Inv(start, t) && k in t.db.obs && AttributedOnce(start, t, t.db.obs[k])
    ensures ClaimedOnce(start, t, k)
  {
    var id := t.db.obs[k];
    forall o
      ensures Claims(t, o, k) <==> AttributedBy(t, o, id)
    {
      ClaimIsAttribution(start, t, o, k, id);
    }
    if !IsAttributed(start, id) {
      var o :| AttributedBy(t, o, id) && forall p :: AttributedBy(t, p, id) ==> p == o;
      assert Claims(t, o, k);
    }
  }

  lemma FinishedClaimed(start: Db, t: System, r: nat, k: Key)
    requires Inv(start, t) && r in t.requests && t.requests[r].pc == Finished && k in t.requests[r].keys
    ensures k in t.db.obs && ClaimedOnce(start, t, k)
  {
    FinishedAttributed(start, t, r, k);
    assert RequestOk(t.db, t.requests[r]);
    ClaimedAsAttributed(start, t, k);
  }

  /** Under every interleaving each key a finished request imported is counted as created or attributed by exactly one request,
      or its link was attributed before and it is so counted by none. */
  lemma EachPairCountedOnce(s: System, events: seq<Event>, r: nat, k: Key)
    requires Initial(s) && AllEnabled(s, events)
    requires var t := Run(s, events);
      r in t.requests && t.requests[r].pc == Finished && k in t.requests[r].keys
    ensures var t := Run(s, events);
      k in t.db.obs && ClaimedOnce(s.db, t, k)
  {
    RunInv(s, events);
    FinishedClaimed(s.db, Run(s, events), r, k);
  }

  /** Importing again what is already attributed changes no link and claims none, at any statement of any interleaving. */
  lemma ReimportChangesNoLink(s: System, events: seq<Event>, r: nat, chunk: set<Key>, proposed: map<Key, nat>, red: set<nat>)
    requires Initial(s) && AllEnabled(s, events)
    requires var t := Run(s, events);
      r in t.requests && forall k :: k in t.requests[r].items ==> k in t.db.obs && IsAttributed(t.db, t.db.obs[k])
    ensures var t := Run(s, events);
      var u := RunStatement(t, r, chunk, proposed, red);
      u.db.links == t.db.links && u.requests[r].attributed == t.requests[r].attributed
  {
    RunInv(s, events);
    NothingToWin(Run(s, events).db, Run(s, events).requests[r], chunk, proposed, red);
  }

  lemma NothingToWin(db: Db, q: Request, chunk: set<Key>, proposed: map<Key, nat>, red: set<nat>)
    requires RequestOk(db, q) && forall k :: k in q.items ==> k in db.obs && IsAttributed(db, db.obs[k])
    ensures DbAfter(db, q, proposed).links == db.links && RequestAfter(db, q, chunk, proposed, red).attributed == q.attributed
  {
    if PastScreening(q.pc) {
      forall id | IsKeyId(q, id)
        ensures IsAttributed(db, id)
      {
        var k :| k in q.keys && k in q.found && q.found[k] == id;
        assert KeyOnItsWay(db, q, k);
      }
      NoneLeft(db, q);
    }
  }

  lemma NoneLeft(db: Db, q: Request)
    requires forall id :: id in q.newLinks || id in q.toFill ==> IsAttributed(db, id)
    ensures InsertLinksDb(db, q).links == db.links && InsertLinks(db, q).attributed == q.attributed
    ensures FillDb(db, q) == db && Fill(db, q).attributed == q.attributed
  {
    assert Inserted(db, q.newLinks) == {};
    assert q.toFill != [] ==> q.toFill[0] in q.toFill;
  }

  ghost predicate AllAttributed(db: Db, items: seq<Key>) {
    forall k :: k in items ==> k in db.obs && IsAttributed(db, db.obs[k])
  }

  /** The request has nothing to win, and has won nothing. */
  ghost predicate Redundant(t: System, r: nat, items: seq<Key>) {
    r in t.requests && t.requests[r].items == items && t.requests[r].attributed == {} && AllAttributed(t.db, items)
  }

  lemma NextGrows(start: Db, s: System, e: Event)
    requires Inv(start, s) && Enabled(s, e)
    ensures Grows(s.db, Next(s, e).db)
  {
    if e.Statement? {
      StatementKeeps(s.db, s.requests[e.r], e.chunk, e.proposed, e.red);
    }
  }

  lemma StaysAttributed(db: Db, next: Db, items: seq<Key>)
    requires AllAttributed(db, items) && Grows(db, next)
    ensures AllAttributed(next, items)
  {
  }

  lemma ItemsStay(db: Db, q: Request, chunk: set<Key>, proposed: map<Key, nat>, red: set<nat>)
    ensures RequestAfter(db, q, chunk, proposed, red).items == q.items
  {
  }

  lemma RedundantStep(start: Db, s: System, e: Event, r: nat, items: seq<Key>)
    requires Inv(start, s) && Enabled(s, e) && Redundant(s, r, items)
    ensures Redundant(Next(s, e), r, items)
    ensures e.Statement? && e.r == r ==> Next(s, e).db.links == s.db.links
  {
    NextGrows(start, s, e);
    StaysAttributed(s.db, Next(s, e).db, items);
    if e.Statement? && e.r == r {
      NothingToWin(s.db, s.requests[r], e.chunk, e.proposed, e.red);
      ItemsStay(s.db, s.requests[r], e.chunk, e.proposed, e.red);
    }
  }

  lemma PrefixInv(s: System, events: seq<Event>, i: nat)
    requires Initial(s) && AllEnabled(s, events) && i <= |events|
    ensures Inv(s.db, Run(s, events[..i]))
    ensures i < |events| ==> Run(s, events[..i + 1]) == Next(Run(s, events[..i]), events[i]) && Enabled(Run(s, events[..i]), events[i])
  {
    forall j | 0 <= j < i
      ensures Enabled(Run(s, events[..i][..j]), events[..i][j])
    {
      assert events[..i][..j] == events[..j];
    }
    RunInv(s, events[..i]);
    assert i < |events| ==> events[..i + 1][..i] == events[..i];
  }

  /** Whether event i is a statement of the request that changed a link. */
  predicate ChangesLinks(s: System, events: seq<Event>, i: nat, r: nat)
    requires i < |events|
  {
    events[i].Statement? && events[i].r == r && Run(s, events[..i + 1]).db.links != Run(s, events[..i]).db.links
  }

  lemma RedundantAt(s: System, events: seq<Event>, i: nat, r: nat, items: seq<Key>)
    requires Initial(s) && AllEnabled(s, events) && i < |events| && Redundant(Run(s, events[..i]), r, items)
    ensures Redundant(Run(s, events[..i + 1]), r, items) && !ChangesLinks(s, events, i, r)
  {
    PrefixInv(s, events, i);
    RedundantStep(s.db, Run(s, events[..i]), events[i], r, items);
  }

  lemma {:induction false} RedundantThroughout(s: System, events: seq<Event>, n: nat, m: nat, r: nat, items: seq<Key>)
    requires Initial(s) && AllEnabled(s, events) && n <= m <= |events| && Redundant(Run(s, events[..n]), r, items)
    ensures Redundant(Run(s, events[..m]), r, items)
    decreases m - n
  {
    if n < m {
      RedundantAt(s, events, n, r, items);
      RedundantThroughout(s, events, n + 1, m, r, items);
    }
  }

  /**
   * A whole import whose items are all attributed when it arrives: whatever runs beside it, none of its statements ever
   * changes a link, and all its verdicts are "already attributed".
   */
  lemma ReimportCountsNothing(s: System, events: seq<Event>, n: nat, m: nat, k: Key)
    requires Initial(s) && AllEnabled(s, events) && n < m <= |events| && events[n].Arrive?
    requires AllAttributed(Run(s, events[..n]).db, events[n].items)
    ensures var t, r := Run(s, events[..m]), events[n].r;
      && r in t.requests && t.requests[r].items == events[n].items && VerdictOn(t.requests[r], k) == AlreadyAttributed
      && forall i :: n < i < m ==> !ChangesLinks(s, events, i, r)
  {
    PrefixInv(s, events, n);
    assert Redundant(Run(s, events[..n + 1]), events[n].r, events[n].items);
    RedundantThroughout(s, events, n + 1, m, events[n].r, events[n].items);
    forall i | n < i < m
      ensures !ChangesLinks(s, events, i, events[n].r)
    {
      RedundantThroughout(s, events, n + 1, i, events[n].r, events[n].items);
      RedundantAt(s, events, i, events[n].r, events[n].items);
    }
  }

  // ── Which items are imported ──────────────────────────────────────────

  /** Past the RED check: an item is imported unless the caller may not see RED and its row was RED. */
  ghost predicate ScreenedBy(q: Request, red: set<nat>) {
    && PastScreening(q.pc)
    && forall k :: k in q.items ==> k in q.found && (k in q.keys <==> !(q.hideRed && q.found[k] in red))
  }

  lemma ScreenDecides(db: Db, q: Request, red: set<nat>)
    requires RequestOk(db, q) && q.pc == Screening
    ensures ScreenedBy(Screen(q, red), red)
  {
    UnhiddenSpec(q.items, q.found, red);
  }

  lemma StatementKeepsScreen(db: Db, q: Request, chunk: set<Key>, proposed: map<Key, nat>, red: set<nat>, screened: set<nat>)
    requires ScreenedBy(q, screened)
    ensures ScreenedBy(RequestAfter(db, q, chunk, proposed, red), screened)
  {
  }

  ghost predicate ArrivedAs(t: System, r: nat, items: seq<Key>, hideRed: bool) {
    r in t.requests && t.requests[r].items == items && t.requests[r].hideRed == hideRed
  }

  lemma ArrivalStep(s: System, events: seq<Event>, i: nat, r: nat, items: seq<Key>, hideRed: bool)
    requires Initial(s) && AllEnabled(s, events) && i < |events| && ArrivedAs(Run(s, events[..i]), r, items, hideRed)
    ensures ArrivedAs(Run(s, events[..i + 1]), r, items, hideRed)
  {
    PrefixInv(s, events, i);
    var t, e := Run(s, events[..i]), events[i];
    if e.Statement? && e.r == r {
      VisibilityStays(t.db, t.requests[r], e.chunk, e.proposed, e.red);
    }
  }

  lemma VisibilityStays(db: Db, q: Request, chunk: set<Key>, proposed: map<Key, nat>, red: set<nat>)
    ensures RequestAfter(db, q, chunk, proposed, red).items == q.items
    ensures RequestAfter(db, q, chunk, proposed, red).hideRed == q.hideRed
  {
  }

  lemma {:induction false} ArrivalStays(s: System, events: seq<Event>, n: nat, m: nat, r: nat, items: seq<Key>, hideRed: bool)
    requires Initial(s) && AllEnabled(s, events) && n <= m <= |events| && ArrivedAs(Run(s, events[..n]), r, items, hideRed)
    ensures ArrivedAs(Run(s, events[..m]), r, items, hideRed)
    decreases m - n
  {
    if n < m {
      ArrivalStep(s, events, n, r, items, hideRed);
      ArrivalStays(s, events, n + 1, m, r, items, hideRed);
    }
  }

  /** A request keeps the items and the visibility it arrived with. */
  lemma ArrivalKept(s: System, events: seq<Event>, n: nat, m: nat)
    requires Initial(s) && AllEnabled(s, events) && n < m <= |events| && events[n].Arrive?
    ensures ArrivedAs(Run(s, events[..m]), events[n].r, events[n].items, events[n].hideRed)
  {
    PrefixInv(s, events, n);
    ArrivalStays(s, events, n + 1, m, events[n].r, events[n].items, events[n].hideRed);
  }

  /** What a hidden id keeps: its request neither claims its link nor changes it. */
  lemma HiddenLinkKept(db: Db, q: Request, chunk: set<Key>, proposed: map<Key, nat>, red: set<nat>, screened: set<nat>, id: nat)
    requires RequestOk(db, q) && ScreenedBy(q, screened) && q.hideRed && id in screened
    ensures LinkState(DbAfter(db, q, proposed), id) == LinkState(db, id)
    ensures id !in q.attributed
  {
    assert !IsKeyId(q, id);
    assert q.toFill != [] ==> q.toFill[0] in q.toFill;
  }

  /** Event n was the RED check of request r, and it answered red. */
  ghost predicate ScreenedAt(s: System, events: seq<Event>, n: nat, r: nat) {
    n < |events| && events[n].Statement? && events[n].r == r && r in Run(s, events[..n]).requests
      && Run(s, events[..n]).requests[r].pc == Screening
  }

  ghost predicate ScreenHolds(t: System, r: nat, red: set<nat>) {
    r in t.requests && ScreenedBy(t.requests[r], red)
  }

  lemma ScreenStep(s: System, events: seq<Event>, i: nat, r: nat, red: set<nat>)
    requires Initial(s) && AllEnabled(s, events) && i < |events| && ScreenHolds(Run(s, events[..i]), r, red)
    ensures ScreenHolds(Run(s, events[..i + 1]), r, red)
  {
    PrefixInv(s, events, i);
    var t, e := Run(s, events[..i]), events[i];
    if e.Statement? && e.r == r {
      StatementKeepsScreen(t.db, t.requests[r], e.chunk, e.proposed, e.red, red);
    }
  }

  lemma {:induction false} ScreenStays(s: System, events: seq<Event>, n: nat, m: nat, r: nat, red: set<nat>)
    requires Initial(s) && AllEnabled(s, events) && n <= m <= |events| && ScreenHolds(Run(s, events[..n]), r, red)
    ensures ScreenHolds(Run(s, events[..m]), r, red)
    decreases m - n
  {
    if n < m {
      ScreenStep(s, events, n, r, red);
      ScreenStays(s, events, n + 1, m, r, red);
    }
  }

  lemma ScreenStarts(s: System, events: seq<Event>, n: nat, r: nat)
    requires Initial(s) && AllEnabled(s, events) && ScreenedAt(s, events, n, r)
    ensures ScreenHolds(Run(s, events[..n + 1]), r, events[n].red)
  {
    PrefixInv(s, events, n);
    var t := Run(s, events[..n]);
    ScreenDecides(t.db, t.requests[r], events[n].red);
  }

  /**
   * In every interleaving a request imports exactly the items its caller may see: all of them, or for a caller that must not see
   * RED those whose row was not RED when the request checked. The link of a hidden row is neither claimed nor changed by it.
   */
  lemma ImportsWhatIsVisible(s: System, events: seq<Event>, n: nat, m: nat, r: nat, k: Key)
    requires Initial(s) && AllEnabled(s, events) && ScreenedAt(s, events, n, r) && n < m <= |events|
    ensures r in Run(s, events[..m]).requests
    ensures var q := Run(s, events[..m]).requests[r];
      && (k in q.items ==> k in q.found && (k in q.keys <==> !(q.hideRed && q.found[k] in events[n].red)))
      && (q.hideRed ==> q.attributed !! events[n].red)
  {
    ScreenStarts(s, events, n, r);
    ScreenStays(s, events, n + 1, m, r, events[n].red);
    PrefixInv(s, events, m);
    var t := Run(s, events[..m]);
    forall id | t.requests[r].hideRed && id in events[n].red
      ensures id !in t.requests[r].attributed
    {
      HiddenLinkKept(t.db, t.requests[r], {}, map[], {}, events[n].red, id);
    }
  }

  /** No statement of a request changes the link of a row it hides. */
  lemma HiddenLinksStay(s: System, events: seq<Event>, n: nat, i: nat, r: nat, id: nat)
    requires Initial(s) && AllEnabled(s, events) && ScreenedAt(s, events, n, r) && n < i < |events|
    requires events[i].Statement? && events[i].r == r && id in events[n].red
    ensures r in Run(s, events[..i]).requests
    ensures Run(s, events[..i]).requests[r].hideRed ==>
      LinkState(Run(s, events[..i + 1]).db, id) == LinkState(Run(s, events[..i]).db, id)
  {
    ScreenStarts(s, events, n, r);
    ScreenStays(s, events, n + 1, i, r, events[n].red);
    PrefixInv(s, events, i);
    var t := Run(s, events[..i]);
    if t.requests[r].hideRed {
      HiddenLinkKept(t.db, t.requests[r], events[i].chunk, events[i].proposed, events[i].red, events[n].red, id);
    }
  }

  // ── One request on its own ────────────────────────────────────────────

  function CountVerdict(q: Request, keys: seq<Key>, v: Verdict): nat {
    if keys == [] then 0
    else CountVerdict(q, keys[..|keys| - 1], v) + (if VerdictOn(q, keys[|keys| - 1]) == v then 1 else 0)
  }

  /** Every item is counted once: created, attributed, already attributed or skipped. */
  method CountResults(db: Db, q: Request) returns (created: nat, existing: nat, already: nat, skipped: nat)
    requires RequestOk(db, q) && q.pc == Finished
    ensures created == CountVerdict(q, q.keys, Created) && existing == CountVerdict(q, q.keys, AttributedExisting)
    ensures already == CountVerdict(q, q.keys, AlreadyAttributed)
    ensures created + existing + already + skipped == |q.items| && skipped == |q.items| - |q.keys|
  {
    assert forall k :: k in q.keys ==> KeyOnItsWay(db, q, k);
    created, existing, already := 0, 0, 0;
    for i := 0 to |q.keys|
      invariant created == CountVerdict(q, q.keys[..i], Created) && existing == CountVerdict(q, q.keys[..i], AttributedExisting)
      invariant already == CountVerdict(q, q.keys[..i], AlreadyAttributed)
      invariant created + existing + already == i
    {
      assert q.keys[..i + 1][..i] == q.keys[..i] && q.keys[i] in q.keys;
      var id := q.found[q.keys[i]];
      if id !in q.attributed {
        already := already + 1;
      } else if q.keys[i] in q.proposed && q.proposed[q.keys[i]] == id {
        created := created + 1;
      } else {
        existing := existing + 1;
      }
    }
    assert q.keys[..|q.keys|] == q.keys;
    skipped := |q.items| - |q.keys|;
  }

  /** Since the start a link changed only by being attributed to this request, and it was not attributed before. */
  ghost predicate Effect(start: Db, db: Db, q: Request) {
    Grows(start, db) && forall id :: EffectAt(start, db, q, id)
  }

  ghost predicate EffectAt(start: Db, db: Db, q: Request, id: nat) {
    && (id in q.attributed <==> !IsAttributed(start, id) && IsAttributed(db, id))
    && (LinkState(db, id) != LinkState(start, id) ==> id in q.attributed)
  }

  lemma StatementEffect(start: Db, db: Db, q: Request, chunk: set<Key>, proposed: map<Key, nat>, red: set<nat>)
    requires Effect(start, db, q) && RequestOk(db, q) && (q.pc == Inserting ==> proposed.Keys == Missing(q))
    ensures Effect(start, DbAfter(db, q, proposed), RequestAfter(db, q, chunk, proposed, red))
    ensures RequestOk(DbAfter(db, q, proposed), RequestAfter(db, q, chunk, proposed, red))
  {
    StatementKeeps(db, q, chunk, proposed, red);
    forall id
      ensures EffectAt(start, DbAfter(db, q, proposed), RequestAfter(db, q, chunk, proposed, red), id)
    {
      assert EffectAt(start, db, q, id);
      WonByStatement(db, q, chunk, proposed, red, id);
      LinkOnlyWon(db, q, proposed, id);
    }
  }

  lemma LinkOnlyWon(db: Db, q: Request, proposed: map<Key, nat>, id: nat)
    ensures LinkState(DbAfter(db, q, proposed), id) != LinkState(db, id) ==>
      !IsAttributed(db, id) && IsAttributed(DbAfter(db, q, proposed), id)
  {
  }

  const QUERY_CHUNK := 500

  function ChunkEnd(start: nat, length: nat): (stop: nat)
    requires start < length
    ensures start < stop <= length
  {
    if start + QUERY_CHUNK < length then start + QUERY_CHUNK else length
  }

  function OfType(keys: seq<Key>, t: ObsType): (values: seq<Key>)
    ensures forall k :: k in values <==> k in keys && k.typ == t
  {
    if keys == [] then []
    else
      assert keys == keys[..|keys| - 1] + [keys[|keys| - 1]];
      OfType(keys[..|keys| - 1], t) + (if keys[|keys| - 1].typ == t then [keys[|keys| - 1]] else [])
  }

  function MissingIn(keys: seq<Key>, found: map<Key, nat>): (missing: seq<Key>)
    ensures forall k :: k in missing <==> k in keys && k !in found
  {
    if keys == [] then []
    else
      assert keys == keys[..|keys| - 1] + [keys[|keys| - 1]];
      MissingIn(keys[..|keys| - 1], found) + (if keys[|keys| - 1] in found then [] else [keys[|keys| - 1]])
  }

  function TypedAs(keys: seq<Key>, types: seq<ObsType>): set<Key> {
    set k | k in keys && k.typ in types
  }

  lemma MembersJoin(keys: seq<Key>, start: nat, stop: nat)
    requires start <= stop <= |keys|
    ensures Members(keys[..stop]) == Members(keys[..start]) + Members(keys[start..stop])
  {
    assert keys[..stop] == keys[..start] + keys[start..stop];
  }

  lemma TypedStep(keys: seq<Key>, types: seq<ObsType>, i: nat)
    requires i < |types|
    ensures TypedAs(keys, types[..i + 1]) == TypedAs(keys, types[..i]) + Members(OfType(keys, types[i]))
  {
    assert types[..i + 1] == types[..i] + [types[i]];
  }

  lemma LookupJoin(db: Db, a: set<Key>, b: set<Key>)
    ensures Lookup(db, a + b) == Lookup(db, a) + Lookup(db, b)
  {
  }

  lemma AllTyped(keys: seq<Key>, types: seq<ObsType>)
    requires types == [IpAddr, DomainName, Url, FileHash, EmailAddr, CommandLine]
    ensures TypedAs(keys, types[..|types|]) == Members(keys)
  {
    assert types[..|types|] == types;
    assert types[0] == IpAddr && types[1] == DomainName && types[2] == Url;
    assert types[3] == FileHash && types[4] == EmailAddr && types[5] == CommandLine;
    forall k: Key
      ensures k.typ in types
    {
      match k.typ
      case IpAddr =>
      case _ =>
    }
  }

  lemma LinksJoin(db: Db, q: Request, a: set<Key>, b: set<Key>)
    ensures LinksOf(db, q, a + b) == LinksOf(db, q, a) + LinksOf(db, q, b)
  {
  }

  /** The first look-up asked in one go, which is what its chunks come to when nothing runs between them. */
  function WithFound(db: Db, q: Request, found: map<Key, nat>): (q': Request)
    requires q.pc == Finding && q.found == map[] && found == Lookup(db, q.pending)
    ensures q' == Find(db, q, q.pending)
  {
    assert q.pending * q.pending == q.pending && map[] + found == found;
    q.(found := found, pending := {}, pc := if forall k :: k in q.items ==> k in found then Screening else Inserting)
  }

  /** The same for the second look-up. */
  function WithMore(db: Db, q: Request, more: map<Key, nat>): (q': Request)
    requires q.pc == Refinding && more == Lookup(db, q.pending)
    ensures q' == Refind(db, q, q.pending)
  {
    assert q.pending * q.pending == q.pending;
    q.(found := q.found + more, pending := {}, pc := Screening)
  }

  /** The same for the look-up of links. */
  function Classified(db: Db, q: Request, seen: map<nat, bool>): (q': Request)
    requires q.seen == map[] && seen == LinksOf(db, q, q.pending)
    ensures q' == FindLinks(db, q, q.pending)
  {
    assert q.pending * q.pending == q.pending && map[] + seen == seen;
    var now := q.(seen := seen, pending := {});
    var absent := IdsSeen(now, q.keys, None);
    now.(newLinks := absent, toFill := IdsSeen(now, q.keys, Some(false)), pc := if absent == [] then Filling else LinkInserting)
  }

  lemma CreateEffect(start: Db, db: Db, q: Request, proposed: map<Key, nat>)
    requires Effect(start, db, q) && RequestOk(db, q) && q.pc == Inserting && proposed.Keys == Missing(q)
    ensures Effect(start, InsertMissing(db, proposed), AfterInsert(q, proposed)) && RequestOk(InsertMissing(db, proposed), AfterInsert(q, proposed))
  {
    StatementEffect(start, db, q, {}, proposed, {});
  }

  lemma RefindEffect(start: Db, db: Db, q: Request)
    requires Effect(start, db, q) && RequestOk(db, q) && q.pc == Refinding
    ensures Effect(start, db, Refind(db, q, q.pending)) && RequestOk(db, Refind(db, q, q.pending))
  {
    StatementEffect(start, db, q, q.pending, map[], {});
  }

  /** Alone, a request that must not see RED leaves every RED row's link as it was and skips nothing else. */
  lemma LoneImportHides(start: Db, db: Db, q: Request, red: set<nat>)
    requires RequestOk(db, q) && Effect(start, db, q) && ScreenedBy(q, red)
    ensures q.hideRed ==> forall id :: id in red ==> LinkState(db, id) == LinkState(start, id)
    ensures !q.hideRed ==> |q.keys| == |q.items|
  {
    forall id | q.hideRed && id in red
      ensures LinkState(db, id) == LinkState(start, id)
    {
      assert EffectAt(start, db, q, id) && !IsKeyId(q, id);
    }
    if !q.hideRed {
      assert forall k :: k in q.keys ==> KeyOnItsWay(db, q, k);
      Sorting.SameMembers(q.keys, q.items);
    }
  }

  /** The tables the import writes. */
  class ImportStore {
    var obs: map<Key, nat>
    var links: map<nat, bool>

    function State(): Db
      reads this
    {
      Db(obs, links)
    }

    /** An import that meets no other. It attributes exactly the links of its keys that were not attributed, touches no other link,
        creates exactly the missing rows, and counts every item once. */
    method ImportCandidates(items: seq<Key>, hideRed: bool, proposed: map<Key, nat>, red: set<nat>)
      returns (q: Request, created: nat, existing: nat, already: nat, skipped: nat)
      requires Sorting.Distinct(items)
      requires proposed.Keys == set k | k in items && k !in obs
      modifies this
      ensures obs == proposed + old(obs) && q.items == items
      ensures forall k :: k in items ==> k in obs && (k in q.keys <==> !(hideRed && obs[k] in red))
      ensures !hideRed ==> skipped == 0
      ensures hideRed ==> forall id :: id in red ==> LinkState(State(), id) == LinkState(old(State()), id)
      ensures forall k :: k in q.keys ==> k in items && k in obs && IsAttributed(State(), obs[k])
      ensures Effect(old(State()), State(), q) && forall id :: id in q.attributed ==> IsKeyId(q, id)
      ensures created == CountVerdict(q, q.keys, Created) && existing == CountVerdict(q, q.keys, AttributedExisting)
      ensures already == CountVerdict(q, q.keys, AlreadyAttributed) && created + existing + already + skipped == |items|
    {
      ghost var start := State();
      q := FindOrCreate(items, hideRed, proposed);
      q := Attribute(start, q, proposed, red);
      q := FillAll(start, q, proposed, red);
      assert ScreenedBy(q, red) && q.hideRed == hideRed;
      LoneImportHides(start, State(), q, red);
      assert forall k :: k in q.keys ==> KeyOnItsWay(State(), q, k);
      created, existing, already, skipped := CountResults(State(), q);
    }

    /** The look-up of observables, one type after the other. */
    method FindObservables(keys: seq<Key>) returns (found: map<Key, nat>)
      ensures found == Lookup(State(), Members(keys))
    {
      var types := [IpAddr, DomainName, Url, FileHash, EmailAddr, CommandLine];
      found := map[];
      for i := 0 to |types|
        invariant found == Lookup(State(), TypedAs(keys, types[..i]))
      {
        var more := FindValues(OfType(keys, types[i]));
        TypedStep(keys, types, i);
        LookupJoin(State(), TypedAs(keys, types[..i]), Members(OfType(keys, types[i])));
        found := found + more;
      }
      AllTyped(keys, types);
    }

    /** The values of one type, 500 to a SELECT. */
    method FindValues(values: seq<Key>) returns (found: map<Key, nat>)
      ensures found == Lookup(State(), Members(values))
    {
      found := map[];
      var start := 0;
      while start < |values|
        invariant start <= |values| && found == Lookup(State(), Members(values[..start]))
      {
        var stop := ChunkEnd(start, |values|);
        MembersJoin(values, start, stop);
        LookupJoin(State(), Members(values[..start]), Members(values[start..stop]));
        found := found + Lookup(State(), Members(values[start..stop]));
        start := stop;
      }
      assert values[..|values|] == values;
    }

    /** Look the keys up, insert what is missing, look again. */
    method FindOrCreate(items: seq<Key>, hideRed: bool, proposed: map<Key, nat>) returns (q: Request)
      requires Sorting.Distinct(items) && proposed.Keys == set k | k in items && k !in obs
      modifies `obs
      ensures obs == proposed + old(obs) && q.items == items && q.hideRed == hideRed && q.pc == Screening
      ensures RequestOk(State(), q) && Effect(old(State()), State(), q)
    {
      q := NewRequest(items, hideRed);
      StatementEffect(State(), State(), q, q.pending, proposed, {});
      var found := FindObservables(items);
      q := WithFound(State(), q, found);
      if q.pc == Inserting {
        q := CreateMissing(State(), q, proposed);
      } else {
        assert proposed + obs == obs;
      }
    }

    method CreateMissing(ghost start: Db, q0: Request, proposed: map<Key, nat>) returns (q: Request)
      requires RequestOk(State(), q0) && Effect(start, State(), q0) && q0.pc == Inserting && proposed.Keys == Missing(q0)
      modifies `obs
      ensures obs == proposed + old(obs) && q.items == q0.items && q.hideRed == q0.hideRed && q.pc == Screening
      ensures RequestOk(State(), q) && Effect(start, State(), q)
    {
      CreateEffect(start, State(), q0, proposed);
      ghost var next := InsertMissing(State(), proposed);
      obs := proposed + obs;
      assert State() == next;
      RefindEffect(start, next, AfterInsert(q0, proposed));
      q := LookAgain(AfterInsert(q0, proposed));
    }

    method LookAgain(q0: Request) returns (q: Request)
      requires q0.pc == Refinding && q0.pending == Missing(q0)
      ensures q == Refind(State(), q0, q0.pending) && q.pc == Screening && q.items == q0.items && q.hideRed == q0.hideRed
    {
      var more := FindObservables(MissingIn(q0.items, q0.found));
      q := WithMore(State(), q0, more);
    }

    /** The RED check, the look-up of links and the insert of the absent ones. */
    method Attribute(ghost start: Db, q0: Request, ghost proposed: map<Key, nat>, red: set<nat>) returns (q: Request)
      requires RequestOk(State(), q0) && Effect(start, State(), q0) && q0.pc == Screening
      modifies `links
      ensures RequestOk(State(), q) && Effect(start, State(), q) && q.pc == Filling && q.items == q0.items
      ensures ScreenedBy(q, red) && q.hideRed == q0.hideRed
    {
      StatementEffect(start, State(), q0, q0.pending, proposed, red);
      ScreenDecides(State(), q0, red);
      var keys := ScreenKeys(q0, red);
      q := q0.(keys := keys, pending := Members(keys), seen := map[], pc := Linking);
      StatementEffect(start, State(), q, q.pending, proposed, red);
      var seen := SeeLinks(q);
      q := Classified(State(), q, seen);
      if q.pc == LinkInserting {
        StatementEffect(start, State(), q, {}, proposed, red);
        var won := InsertLinks(State(), q);
        links := InsertLinksDb(State(), q).links;
        q := won;
      }
    }

    /** The look-up of links: one SELECT per 500 ids. */
    method SeeLinks(q: Request) returns (seen: map<nat, bool>)
      ensures seen == LinksOf(State(), q, Members(q.keys))
    {
      seen := map[];
      var start := 0;
      while start < |q.keys|
        invariant start <= |q.keys| && seen == LinksOf(State(), q, Members(q.keys[..start]))
      {
        var stop := ChunkEnd(start, |q.keys|);
        MembersJoin(q.keys, start, stop);
        LinksJoin(State(), q, Members(q.keys[..start]), Members(q.keys[start..stop]));
        seen := seen + LinksOf(State(), q, Members(q.keys[start..stop]));
        start := stop;
      }
      assert q.keys[..|q.keys|] == q.keys;
    }

    method ScreenKeys(q: Request, red: set<nat>) returns (keys: seq<Key>)
      requires forall k :: k in q.items ==> k in q.found
      ensures keys == Screen(q, red).keys
    {
      if !q.hideRed {
        return q.items;
      }
      keys := [];
      for i := 0 to |q.items|
        invariant keys == Unhidden(q.items[..i], q.found, red)
      {
        assert q.items[..i + 1][..i] == q.items[..i] && q.items[i] in q.items;
        if q.found[q.items[i]] !in red {
          keys := keys + [q.items[i]];
        }
      }
      assert q.items[..|q.items|] == q.items;
    }

    /** One UPDATE per link still to fill. */
    method FillAll(ghost start: Db, q0: Request, ghost proposed: map<Key, nat>, ghost red: set<nat>) returns (q: Request)
      requires RequestOk(State(), q0) && Effect(start, State(), q0) && q0.pc == Filling
      modifies `links
      ensures RequestOk(State(), q) && Effect(start, State(), q) && q.pc == Finished && q.items == q0.items
      ensures q.keys == q0.keys && q.found == q0.found && q.hideRed == q0.hideRed
    {
      q := q0;
      while q.toFill != []
        invariant q.pc == Filling && RequestOk(State(), q) && Effect(start, State(), q) && q.items == q0.items
        invariant q.keys == q0.keys && q.found == q0.found && q.hideRed == q0.hideRed
        decreases |q.toFill|
      {
        StatementEffect(start, State(), q, {}, proposed, red);
        var filled := Fill(State(), q);
        if Fills(State(), q.toFill[0]) {
          links := links[q.toFill[0] := true];
        }
        q := filled;
      }
      StatementEffect(start, State(), q, {}, proposed, red);
      q := Fill(State(), q);
    }
  }

  /** Alone, the verdicts say what the database said before: new row, link to attribute, or attributed already. */
  lemma VerdictsAlone(start: Db, db: Db, q: Request, k: Key)
    requires RequestOk(db, q) && Effect(start, db, q) && q.pc == Finished && k in q.keys
    requires db.obs == q.proposed + start.obs && q.proposed.Keys == set j | j in q.items && j !in start.obs
    requires forall j :: j in q.proposed ==> !(q.proposed[j] in start.links) && !(q.proposed[j] in start.obs.Values)
    ensures VerdictOn(q, k) == if k !in start.obs then Created
      else if IsAttributed(start, start.obs[k]) then AlreadyAttributed else AttributedExisting
  {
    assert KeyOnItsWay(db, q, k);
    var id := q.found[k];
    assert IsAttributed(db, id) && EffectAt(start, db, q, id);
  }
}
