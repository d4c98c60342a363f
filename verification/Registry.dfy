/** The dynamic client registry: the in-memory reference
    (crates/oidc-core/src/registry.rs) and the Durable Object behind its
    path-addressed client (crates/discord-oidc-worker/src/durable.rs and
    registry_client.rs). */
module Registry {
  import opened Basics
  import opened Client
  import opened ClientRecords
  import opened Text

  type Records = map<string, ClientRecord>

  datatype RotateOutcome = Rotated(record: ClientRecord) | RotateNotFound | NoSecret

  // ---------- The order of listings ----------

  /** Byte order on strings. */
  predicate Less(a: string, b: string) {
    b != "" && (a == "" || a[0] < b[0] || (a[0] == b[0] && Less(a[1..], b[1..])))
  }

  lemma {:induction false} LessTransitive(a: string, b: string, c: string)
    requires Less(a, b) && Less(b, c)
    ensures Less(a, c)
  {
    if a != "" && a[0] == b[0] == c[0] { LessTransitive(a[1..], b[1..], c[1..]); }
  }

  lemma {:induction false} LessIrreflexive(a: string)
    ensures !Less(a, a)
  {
    if a != "" { LessIrreflexive(a[1..]); }
  }

  lemma {:induction false} LessTotal(a: string, b: string)
    ensures a == b || Less(a, b) || Less(b, a)
    ensures !(Less(a, b) && Less(b, a))
    ensures Less(a, b) ==> a != b
  {
    LessIrreflexive(a);
    if a != "" && b != "" {
      LessTotal(a[1..], b[1..]);
      assert a == [a[0]] + a[1..] && b == [b[0]] + b[1..];
    }
  }

  /** `a` and `b` agree before position `k` and differ there, or `a` ends there. */
  ghost predicate DiffersAt(a: string, b: string, k: nat) {
    && k <= |a| && k < |b| && a[..k] == b[..k] && (k == |a| || a[k] < b[k])
  }

  /** The order is decided at the first difference; a prefix comes first. */
  lemma {:induction false} LessExact(a: string, b: string)
    ensures Less(a, b) <==> exists k: nat :: DiffersAt(a, b, k)
  {
    if a == "" || b == "" || a[0] != b[0] {
      if Less(a, b) { assert DiffersAt(a, b, 0); }
      forall k: nat | DiffersAt(a, b, k) ensures k == 0 { SameStart(a, b, k); }
    } else {
      LessExact(a[1..], b[1..]);
      forall k: nat ensures DiffersAt(a, b, k + 1) <==> DiffersAt(a[1..], b[1..], k) { DiffersLater(a, b, k); }
      assert !DiffersAt(a, b, 0);
      forall k: nat | DiffersAt(a, b, k) ensures k > 0 && DiffersAt(a[1..], b[1..], k - 1) {
        assert DiffersAt(a, b, k - 1 + 1);
      }
    }
  }

  lemma SameStart(a: string, b: string, k: nat)
    requires DiffersAt(a, b, k)
    ensures k == 0 || a[0] == b[0]
  {
    if k > 0 { assert a[0] == a[..k][0] && b[0] == b[..k][0]; }
  }

  lemma DiffersLater(a: string, b: string, k: nat)
    requires a != "" && b != "" && a[0] == b[0]
    ensures DiffersAt(a, b, k + 1) <==> DiffersAt(a[1..], b[1..], k)
  {
    if k + 1 <= |a| && k + 1 < |b| {
      assert a[..k + 1] == [a[0]] + a[1..][..k] && b[..k + 1] == [b[0]] + b[1..][..k];
      assert a[..k + 1][1..] == a[1..][..k] && b[..k + 1][1..] == b[1..][..k];
    }
  }

  ghost predicate Ascending(rs: seq<ClientRecord>) {
    forall i, j :: 0 <= i < j < |rs| ==> Less(rs[i].clientId, rs[j].clientId)
  }

  /** All records, each once, ordered by `client_id`. */
  ghost predicate IsListing(records: Records, out: seq<ClientRecord>) {
    && Ascending(out)
    && (forall i :: 0 <= i < |out| ==> out[i].clientId in records && records[out[i].clientId] == out[i])
    && (forall id :: id in records ==> records[id] in out)
  }

  lemma HeadsAgree(records: Records, a: seq<ClientRecord>, b: seq<ClientRecord>)
    requires IsListing(records, a) && IsListing(records, b) && a != []
    ensures b != [] && b[0] == a[0]
  {
    assert records[a[0].clientId] in b;
    assert records[b[0].clientId] in a;
    var i :| 0 <= i < |a| && a[i] == b[0];
    var j :| 0 <= j < |b| && b[j] == a[0];
    LessTotal(a[0].clientId, b[0].clientId);
  }

  lemma SameHeadAndTail<T>(a: seq<T>, b: seq<T>)
    requires a != [] && b != [] && a[0] == b[0] && a[1..] == b[1..]
    ensures a == b
  {
    assert a == [a[0]] + a[1..] && b == [b[0]] + b[1..];
  }

  /** A listing is unique, so two registries with the same records list the same. */
  lemma {:induction false} ListingUnique(records: Records, a: seq<ClientRecord>, b: seq<ClientRecord>)
    requires KeyedById(records) && IsListing(records, a) && IsListing(records, b)
    ensures a == b
    decreases |a|
  {
    if a == [] {
      if b != [] { HeadsAgree(records, b, a); }
    } else {
      HeadsAgree(records, a, b);
      RestListing(records, a);
      RestListing(records, b);
      ListingUnique(Without(records, a[0].clientId), a[1..], b[1..]);
      SameHeadAndTail(a, b);
    }
  }

  ghost predicate KeyedById(records: Records) { forall id :: id in records ==> records[id].clientId == id }

  lemma RestListing(records: Records, a: seq<ClientRecord>)
    requires KeyedById(records) && IsListing(records, a) && a != []
    ensures KeyedById(Without(records, a[0].clientId)) && IsListing(Without(records, a[0].clientId), a[1..])
  {
    forall i | 0 < i < |a| ensures a[i].clientId != a[0].clientId { LessTotal(a[0].clientId, a[i].clientId); }
    forall id | id in records && id != a[0].clientId ensures records[id] in a[1..] {
      var k :| 0 <= k < |a| && a[k] == records[id];
      assert a[k].clientId == id && a[1..][k - 1] == a[k];
    }
  }

  function Position(rs: seq<ClientRecord>, id: string): (n: nat)
    ensures n <= |rs|
    ensures forall i :: 0 <= i < n ==> Less(rs[i].clientId, id)
    ensures n < |rs| ==> !Less(rs[n].clientId, id)
  {
    if rs == [] || !Less(rs[0].clientId, id) then 0 else 1 + Position(rs[1..], id)
  }

  function InsertById(rs: seq<ClientRecord>, r: ClientRecord): seq<ClientRecord> {
    var n := Position(rs, r.clientId);
    rs[..n] + [r] + rs[n..]
  }

  lemma InsertByIdElements(rs: seq<ClientRecord>, r: ClientRecord)
    ensures forall x :: x in InsertById(rs, r) <==> x == r || x in rs
  {
    var n := Position(rs, r.clientId);
    assert rs == rs[..n] + rs[n..];
  }

  lemma InsertByIdAscending(rs: seq<ClientRecord>, r: ClientRecord)
    requires Ascending(rs) && forall i :: 0 <= i < |rs| ==> rs[i].clientId != r.clientId
    ensures Ascending(InsertById(rs, r))
  {
    var n, out := Position(rs, r.clientId), InsertById(rs, r);
    forall i | n <= i < |rs| ensures Less(r.clientId, rs[i].clientId) {
      LessTotal(rs[n].clientId, r.clientId);
      if n < i { LessTransitive(r.clientId, rs[n].clientId, rs[i].clientId); }
    }
    assert forall i :: 0 <= i < |out| ==> out[i] == (if i < n then rs[i] else if i == n then r else rs[i - 1]);
  }

  // ---------- The reference semantics ----------

  function Inserted(records: Records, r: ClientRecord): Records {
    if r.clientId in records then records else records[r.clientId := r]
  }

  function Changed(records: Records, id: string, op: RecordOp): Records {
    if id in records then records[id := Apply(records[id], op)] else records
  }

  function Lookup(records: Records, id: string): Option<ClientRecord> {
    if id in records then Some(records[id]) else None
  }

  function RotateReply(records: Records, id: string, op: RecordOp): RotateOutcome {
    if id !in records then RotateNotFound
    else if records[id].clientType != Confidential then NoSecret
    else Rotated(Apply(records[id], op))
  }

  function StatusOp(status: Status, now: int): RecordOp { if status == Active then Enable(now) else Disable(now) }

  /** `InMemoryClientRegistry`. */
  class InMemoryClientRegistry {
    var records: Records

    constructor ()
      ensures records == map[]
    {
      records := map[];
    }

    method Get(id: string) returns (r: Option<ClientRecord>)
      ensures r == Lookup(records, id)
    {
      r := if id in records then Some(records[id]) else None;
    }

    method List() returns (out: seq<ClientRecord>)
      requires KeyedById(records)
      ensures IsListing(records, out)
    {
      out := [];
      var todo := records.Keys;
      while todo != {}
        invariant todo <= records.Keys && Ascending(out)
        invariant forall x :: x in out <==> x.clientId in records && x.clientId !in todo && records[x.clientId] == x
        decreases |todo|
      {
        var id :| id in todo;
        assert forall i :: 0 <= i < |out| ==> out[i] in out;
        InsertByIdAscending(out, records[id]);
        InsertByIdElements(out, records[id]);
        out := InsertById(out, records[id]);
        todo := todo - {id};
      }
      assert forall i :: 0 <= i < |out| ==> out[i] in out;
    }

    method Insert(r: ClientRecord) returns (inserted: bool)
      modifies this
      ensures inserted <==> r.clientId !in old(records)
      ensures records == Inserted(old(records), r)
    {
      if r.clientId in records { return false; }
      records := records[r.clientId := r];
      inserted := true;
    }

    method UpdateMetadata(id: string, m: Metadata, now: int) returns (r: Option<ClientRecord>)
      modifies this
      ensures records == Changed(old(records), id, Update(m, now)) && r == Lookup(records, id)
    {
      if id !in records { return None; }
      var cell := new RecordCell.Load(records[id]);
      cell.ApplyMetadata(m, now);
      records := records[id := cell.Stored()];
      r := Some(cell.Stored());
    }

    method SetStatus(id: string, status: Status, now: int) returns (r: Option<ClientRecord>)
      modifies this
      ensures records == Changed(old(records), id, StatusOp(status, now)) && r == Lookup(records, id)
    {
      if id !in records { return None; }
      var cell := new RecordCell.Load(records[id]);
      match status {
        case Active => cell.EnableClient(now);
        case Disabled => cell.DisableClient(now);
      }
      records := records[id := cell.Stored()];
      r := Some(cell.Stored());
    }

    method RotateSecret(id: string, hash: string, now: int) returns (r: RotateOutcome)
      modifies this
      ensures records == Changed(old(records), id, Rotate(hash, now))
      ensures r == old(RotateReply(records, id, Rotate(hash, now)))
    {
      if id !in records { return RotateNotFound; }
      var cell := new RecordCell.Load(records[id]);
      var until := cell.RotateSecret(hash, now);
      records := records[id := cell.Stored()];
      r := if until.Some? then Rotated(cell.Stored()) else NoSecret;
    }
  }

  // ---------- Paths ----------

  function ClientPath(id: string): string { "/clients/" + id }

  function ActionPath(id: string, action: string): string { "/clients/" + id + "/" + action }

  datatype Route = Collection | OneClient(id: string) | ClientAction(id: string, action: string) | NoRoute

  /** The path dispatch of `ClientRegistryState::fetch`. */
  function ParseRoute(path: string): Route {
    match StripPrefix(path, "/clients")
    case None => NoRoute
    case Some(rest) =>
      if rest == "" then Collection
      else if rest[0] != '/' then NoRoute
      else
        var segments := Split(TrimSlashes(rest), '/');
        if |segments| == 1 then OneClient(segments[0])
        else if |segments| == 2 then ClientAction(segments[0], segments[1])
        else NoRoute
  }

  ghost predicate PlainSegment(s: string) { s != "" && forall i :: 0 <= i < |s| ==> s[i] != '/' }

  lemma RestOfPath(root: string, rest: string)
    requires rest != "" && rest[0] != '/'
    ensures StripPrefix(root + "/" + rest, root) == Some("/" + rest)
    ensures TrimSlashes("/" + rest) == rest
  {
    assert root + "/" + rest == root + ("/" + rest);
    StripPrefixOfConcat(root, "/" + rest);
    assert ("/" + rest)[1..] == rest;
  }

  lemma SegmentsOf(id: string, action: string)
    requires PlainSegment(id) && PlainSegment(action)
    ensures Split(id, '/') == [id] && Split(id + "/" + action, '/') == [id, action]
  {
    SplitNone(id, '/');
    SplitOnceAt(id, '/', action);
    SplitNone(action, '/');
  }

  lemma RouteOfRest(path: string, rest: string, segments: seq<string>)
    requires path == "/clients" + "/" + rest && rest != "" && rest[0] != '/' && Split(rest, '/') == segments
    ensures |segments| == 1 ==> ParseRoute(path) == OneClient(segments[0])
    ensures |segments| == 2 ==> ParseRoute(path) == ClientAction(segments[0], segments[1])
  {
    RestOfPath("/clients", rest);
  }

  lemma PathOfOne(id: string)
    ensures ClientPath(id) == "/clients" + "/" + id
  {
  }

  lemma PathOfAction(id: string, action: string)
    ensures ActionPath(id, action) == "/clients" + "/" + (id + "/" + action)
  {
  }

  /** A printed path parses back to the id and action it was made from. */
  lemma PathRoundTrip(id: string, action: string)
    requires PlainSegment(id) && PlainSegment(action)
    ensures ParseRoute(ClientPath(id)) == OneClient(id)
    ensures ParseRoute(ActionPath(id, action)) == ClientAction(id, action)
  {
    SegmentsOf(id, action);
    PathOfOne(id);
    PathOfAction(id, action);
    var rest := id + "/" + action;
    assert rest[0] == id[0];
    RouteOfRest(ClientPath(id), id, [id]);
    RouteOfRest(ActionPath(id, action), rest, [id, action]);
  }

  lemma DynamicIdIsPlain(id: string)
    requires IsDynamicClientId(id)
    ensures PlainSegment(id)
  {
    assert id[..4] == "oji_";
    assert forall i :: 0 <= i < 4 ==> id[i] == id[..4][i];
  }

  // ---------- The Durable Object ----------

  const CLIENT_PREFIX := "client:"

  function ClientKey(id: string): string { CLIENT_PREFIX + id }

  lemma ClientKeyInjective(a: string, b: string)
    requires ClientKey(a) == ClientKey(b)
    ensures a == b
  {
    assert ClientKey(a)[7..] == a && ClientKey(b)[7..] == b;
  }

  /** The registry that a prefixed storage map stands for. */
  ghost function View(storage: Records): Records {
    var ids := set k | k in storage && |k| >= 7 :: k[7..];
    map id | id in ids && ClientKey(id) in storage :: storage[ClientKey(id)]
  }

  lemma ViewLookup(storage: Records, id: string)
    ensures id in View(storage) <==> ClientKey(id) in storage
    ensures id in View(storage) ==> View(storage)[id] == storage[ClientKey(id)]
  {
    assert ClientKey(id)[7..] == id;
  }

  lemma ViewPut(storage: Records, id: string, r: ClientRecord)
    ensures View(storage[ClientKey(id) := r]) == View(storage)[id := r]
  {
    var after := storage[ClientKey(id) := r];
    forall x ensures x in View(after) <==> x in View(storage)[id := r] {
      ViewLookup(after, x); ViewLookup(storage, x);
      if ClientKey(x) == ClientKey(id) { ClientKeyInjective(x, id); }
    }
    forall x | x in View(after) ensures View(after)[x] == View(storage)[id := r][x] {
      ViewLookup(after, x); ViewLookup(storage, x);
      if ClientKey(x) == ClientKey(id) { ClientKeyInjective(x, id); }
    }
  }

  /** Every key with the prefix is the key of the record under it. Other keys
      may be there too, holding anything. */
  ghost predicate StorageOk(storage: Records) {
    forall k :: k in storage && CLIENT_PREFIX <= k ==> k == ClientKey(storage[k].clientId)
  }

  lemma ViewKeyed(storage: Records)
    requires StorageOk(storage)
    ensures KeyedById(View(storage))
  {
    forall id | id in View(storage) ensures View(storage)[id].clientId == id {
      ViewLookup(storage, id);
      assert CLIENT_PREFIX <= ClientKey(id);
      ClientKeyInjective(id, storage[ClientKey(id)].clientId);
    }
  }

  datatype Verb = Get | Put | Post

  datatype Body =
    | NoBody | RecordBody(record: ClientRecord) | UpdateBody(metadata: Metadata, now: int)
    | StatusBody(now: int) | RotateBody(hash: string, now: int)

  datatype Reply =
    | NotFound | MethodNotAllowed | IdMismatch | BadBody
    | OneRecord(record: ClientRecord) | AllRecords(records: seq<ClientRecord>)
    | InsertReply(inserted: bool) | ChangeReply(changed: Option<ClientRecord>) | RotationReply(outcome: RotateOutcome)

  /** What one request does to a registry, addressed by route. */
  ghost function Served(records: Records, verb: Verb, route: Route, body: Body): (Reply, Records) {
    match (verb, route)
    case (Get, OneClient(id)) => (if id in records then OneRecord(records[id]) else NotFound, records)
    case (Put, OneClient(id)) =>
      if !body.RecordBody? then (BadBody, records)
      else if body.record.clientId != id then (IdMismatch, records)
      else (InsertReply(id !in records), Inserted(records, body.record))
    case (Post, ClientAction(id, action)) =>
      if action == "update" then
        if !body.UpdateBody? then (BadBody, records)
        else var after := Changed(records, id, Update(body.metadata, body.now)); (ChangeReply(Lookup(after, id)), after)
      else if action == "disable" || action == "enable" then
        if !body.StatusBody? then (BadBody, records)
        else
          var op := if action == "enable" then Enable(body.now) else Disable(body.now);
          var after := Changed(records, id, op); (ChangeReply(Lookup(after, id)), after)
      else if action == "rotate-secret" then
        if !body.RotateBody? then (BadBody, records)
        else
          var op := Rotate(body.hash, body.now);
          (RotationReply(RotateReply(records, id, op)), Changed(records, id, op))
      else (NotFound, records)
    case (Get, Collection) => (AllRecords(Listing(records)), records)
    case (_, Collection) => (MethodNotAllowed, records)
    case _ => (NotFound, records)
  }

  lemma ListingExists(records: Records)
    requires KeyedById(records)
    ensures exists out :: IsListing(records, out)
    decreases |records.Keys|
  {
    if records.Keys == {} {
      assert IsListing(records, []);
    } else {
      var id :| id in records;
      var rest := Without(records, id);
      assert rest.Keys == records.Keys - {id};
      ListingExists(rest);
      var out: seq<ClientRecord> :| IsListing(rest, out);
      assert forall i :: 0 <= i < |out| ==> out[i].clientId in rest;
      InsertByIdAscending(out, records[id]);
      InsertByIdElements(out, records[id]);
      var all := InsertById(out, records[id]);
      forall i | 0 <= i < |all| ensures all[i].clientId in records && records[all[i].clientId] == all[i] {
        assert all[i] in all;
      }
      forall x | x in records ensures records[x] in all {
        if x != id { assert rest[x] in out; }
      }
      assert IsListing(records, all);
    }
  }

  /** The listing of a registry in order (arbitrary if ids and keys disagree). */
  ghost function Listing(records: Records): (out: seq<ClientRecord>)
    ensures KeyedById(records) ==> IsListing(records, out)
  {
    if KeyedById(records) then (ListingExists(records); var out :| IsListing(records, out); out) else []
  }

  /** `ClientRegistryState`. */
  class ClientRegistryState {
    var storage: Records

    ghost predicate Valid()
      reads this
    {
      StorageOk(storage)
    }

    constructor ()
      ensures Valid() && View(storage) == map[]
    {
      storage := map[];
    }

    method List() returns (records: seq<ClientRecord>)
      requires Valid()
      ensures records == Listing(View(storage))
    {
      records := [];
      var todo := storage.Keys;
      while todo != {}
        invariant todo <= storage.Keys && Ascending(records)
        invariant forall x :: x in records <==> ClientKey(x.clientId) in storage && ClientKey(x.clientId) !in todo
                                                && storage[ClientKey(x.clientId)] == x
        decreases |todo|
      {
        var key :| key in todo;
        if CLIENT_PREFIX <= key {
          assert key == ClientKey(storage[key].clientId);
          forall i | 0 <= i < |records| ensures records[i].clientId != storage[key].clientId {
            assert records[i] in records;
          }
          InsertByIdAscending(records, storage[key]);
          InsertByIdElements(records, storage[key]);
          records := InsertById(records, storage[key]);
          forall x
            ensures x in records <==> ClientKey(x.clientId) in storage && ClientKey(x.clientId) !in todo - {key}
                                      && storage[ClientKey(x.clientId)] == x
          {
            if ClientKey(x.clientId) == key { ClientKeyInjective(x.clientId, storage[key].clientId); }
          }
        }
        todo := todo - {key};
      }
      ViewKeyed(storage);
      forall i | 0 <= i < |records|
        ensures records[i].clientId in View(storage) && View(storage)[records[i].clientId] == records[i]
      {
        assert records[i] in records;
        ViewLookup(storage, records[i].clientId);
      }
      forall id | id in View(storage) ensures View(storage)[id] in records {
        ViewLookup(storage, id);
      }
      ListingUnique(View(storage), records, Listing(View(storage)));
    }

    /** `mutate` with the disable, enable or update transition. */
    method Mutate(id: string, op: RecordOp) returns (r: Option<ClientRecord>)
      requires Valid() && !op.Rotate?
      modifies this
      ensures Valid() && View(storage) == Changed(old(View(storage)), id, op) && r == Lookup(View(storage), id)
    {
      var key := ClientKey(id);
      ViewLookup(storage, id);
      if key !in storage { return None; }
      var cell := new RecordCell.Load(storage[key]);
      match op {
        case Update(m, now) => cell.ApplyMetadata(m, now);
        case Disable(now) => cell.DisableClient(now);
        case Enable(now) => cell.EnableClient(now);
      }
      ViewPut(storage, id, cell.Stored());
      storage := storage[key := cell.Stored()];
      r := Some(cell.Stored());
    }

    /** The rotation branch of `fetch`: written back only when it applied. */
    method RotateRecord(id: string, hash: string, now: int) returns (outcome: RotateOutcome)
      requires Valid()
      modifies this
      ensures Valid() && View(storage) == Changed(old(View(storage)), id, Rotate(hash, now))
      ensures outcome == RotateReply(old(View(storage)), id, Rotate(hash, now))
    {
      var key := ClientKey(id);
      ViewLookup(storage, id);
      if key !in storage { return RotateNotFound; }
      var cell := new RecordCell.Load(storage[key]);
      var until := cell.RotateSecret(hash, now);
      ViewPut(storage, id, cell.Stored());
      assert View(storage)[id := storage[key]] == View(storage);
      if until == None { return NoSecret; }
      storage := storage[key := cell.Stored()];
      outcome := Rotated(cell.Stored());
    }

    /** `fetch`: one serialized event. */
    method Fetch(verb: Verb, path: string, body: Body) returns (reply: Reply)
      requires Valid()
      modifies this
      ensures Valid()
      ensures (reply, View(storage)) == Served(old(View(storage)), verb, ParseRoute(path), body)
    {
      var route := ParseRoute(path);
      if route.OneClient? || route.ClientAction? {
        ViewLookup(storage, route.id);
      }
      match (verb, route) {
        case (Get, Collection) =>
          var records := List();
          reply := AllRecords(records);
        case (_, Collection) => reply := MethodNotAllowed;
        case (Get, OneClient(id)) =>
          reply := if ClientKey(id) in storage then OneRecord(storage[ClientKey(id)]) else NotFound;
        case (Put, OneClient(id)) =>
          if !body.RecordBody? { return BadBody; }
          if body.record.clientId != id { return IdMismatch; }
          var inserted := ClientKey(id) !in storage;
          if inserted {
            ViewPut(storage, id, body.record);
            storage := storage[ClientKey(id) := body.record];
          }
          reply := InsertReply(inserted);
        case (Post, ClientAction(id, action)) =>
          if action == "update" {
            if !body.UpdateBody? { return BadBody; }
            var r := Mutate(id, Update(body.metadata, body.now));
            reply := ChangeReply(r);
          } else if action == "disable" {
            if !body.StatusBody? { return BadBody; }
            var r := Mutate(id, Disable(body.now));
            reply := ChangeReply(r);
          } else if action == "enable" {
            if !body.StatusBody? { return BadBody; }
            var r := Mutate(id, Enable(body.now));
            reply := ChangeReply(r);
          } else if action == "rotate-secret" {
            if !body.RotateBody? { return BadBody; }
            var outcome := RotateRecord(id, body.hash, body.now);
            reply := RotationReply(outcome);
          } else {
            reply := NotFound;
          }
        case _ => reply := NotFound;
      }
    }
  }

  // ---------- The client side ----------

  datatype RegistryOp =
    | GetOp(id: string) | ListOp | InsertOp(record: ClientRecord) | UpdateOp(id: string, metadata: Metadata, now: int)
    | StatusChange(id: string, status: Status, now: int) | RotateOp(id: string, hash: string, now: int)

  /** The client id an operation is addressed to (`ListOp` has none). */
  function Target(op: RegistryOp): string {
    if op.ListOp? then "" else if op.InsertOp? then op.record.clientId else op.id
  }

  datatype Answer =
    | StoreError | Found(record: Option<ClientRecord>) | Listed(records: seq<ClientRecord>)
    | InsertedAnswer(inserted: bool) | RotatedAnswer(outcome: RotateOutcome)

  /** How `RegistryClient` prints each operation. */
  function Print(op: RegistryOp): (Verb, string, Body) {
    match op
    case GetOp(id) => (Get, ClientPath(id), NoBody)
    case ListOp => (Get, "/clients", NoBody)
    case InsertOp(r) => (Put, ClientPath(r.clientId), RecordBody(r))
    case UpdateOp(id, m, now) => (Post, ActionPath(id, "update"), UpdateBody(m, now))
    case StatusChange(id, status, now) =>
      (Post, ActionPath(id, if status == Active then "enable" else "disable"), StatusBody(now))
    case RotateOp(id, hash, now) => (Post, ActionPath(id, "rotate-secret"), RotateBody(hash, now))
  }

  /** How it reads the reply: an unexpected status is a storage error. */
  function ReadReply(op: RegistryOp, reply: Reply): Answer {
    match (op, reply)
    case (GetOp(_), OneRecord(r)) => Found(Some(r))
    case (GetOp(_), NotFound) => Found(None)
    case (ListOp, AllRecords(rs)) => Listed(rs)
    case (InsertOp(_), InsertReply(b)) => InsertedAnswer(b)
    case (UpdateOp(_, _, _), ChangeReply(r)) => Found(r)
    case (StatusChange(_, _, _), ChangeReply(r)) => Found(r)
    case (RotateOp(_, _, _), RotationReply(o)) => RotatedAnswer(o)
    case _ => StoreError
  }

  /** The reference semantics of one operation. */
  ghost function Reference(records: Records, op: RegistryOp): (Answer, Records) {
    match op
    case GetOp(id) => (Found(Lookup(records, id)), records)
    case ListOp => (Listed(Listing(records)), records)
    case InsertOp(r) => (InsertedAnswer(r.clientId !in records), Inserted(records, r))
    case UpdateOp(id, m, now) =>
      var after := Changed(records, id, Update(m, now)); (Found(Lookup(after, id)), after)
    case StatusChange(id, status, now) =>
      var after := Changed(records, id, StatusOp(status, now)); (Found(Lookup(after, id)), after)
    case RotateOp(id, hash, now) =>
      (RotatedAnswer(RotateReply(records, id, Rotate(hash, now))), Changed(records, id, Rotate(hash, now)))
  }

  /** One operation through print, dispatch and read. */
  ghost function Remote(records: Records, op: RegistryOp): (Answer, Records) {
    var (verb, path, body) := Print(op);
    var (reply, after) := Served(records, verb, ParseRoute(path), body);
    (ReadReply(op, reply), after)
  }

  lemma RemoteOne(records: Records, op: RegistryOp)
    requires (op.GetOp? || op.InsertOp?) && IsDynamicClientId(Target(op))
    ensures Remote(records, op) == Reference(records, op)
  {
    DynamicIdIsPlain(Target(op));
    PathRoundTrip(Target(op), "x");
  }

  lemma RemoteList(records: Records)
    ensures Remote(records, ListOp) == Reference(records, ListOp)
  {
    StripPrefixOfConcat("/clients", "");
    assert "/clients" + "" == "/clients";
  }

  lemma RemoteUpdate(records: Records, op: RegistryOp)
    requires op.UpdateOp? && IsDynamicClientId(op.id)
    ensures Remote(records, op) == Reference(records, op)
  {
    DynamicIdIsPlain(op.id);
    PathRoundTrip(op.id, "update");
  }

  lemma RemoteStatus(records: Records, op: RegistryOp)
    requires op.StatusChange? && IsDynamicClientId(op.id)
    ensures Remote(records, op) == Reference(records, op)
  {
    DynamicIdIsPlain(op.id);
    PathRoundTrip(op.id, if op.status == Active then "enable" else "disable");
  }

  lemma RemoteRotate(records: Records, op: RegistryOp)
    requires op.RotateOp? && IsDynamicClientId(op.id)
    ensures Remote(records, op) == Reference(records, op)
  {
    DynamicIdIsPlain(op.id);
    PathRoundTrip(op.id, "rotate-secret");
  }

  /** For well-formed dynamic ids the client and the object together are the
      in-memory registry. */
  lemma RemoteIsReference(records: Records, op: RegistryOp)
    requires op.ListOp? || IsDynamicClientId(Target(op))
    ensures Remote(records, op) == Reference(records, op)
  {
    match op {
      case ListOp => RemoteList(records);
      case UpdateOp(_, _, _) => RemoteUpdate(records, op);
      case StatusChange(_, _, _) => RemoteStatus(records, op);
      case RotateOp(_, _, _) => RemoteRotate(records, op);
      case _ => RemoteOne(records, op);
    }
  }

  /** What a call can lead to, given what happens to it on the way: the answer
      and the records after it. */
  ghost function Reached(records: Records, done: (Answer, Records), fault: Fault): (Answer, Records) {
    match fault
    case Delivered => done
    case LostRequest => (StoreError, records)
    case LostReply => (StoreError, done.1)
  }

  datatype RegistryCall = RegistryCall(op: RegistryOp, fault: Fault)

  ghost function RunRemote(records: Records, calls: seq<RegistryCall>): (seq<Answer>, Records)
    decreases |calls|
  {
    if calls == [] then ([], records)
    else
      var (a, mid) := Reached(records, Remote(records, calls[0].op), calls[0].fault);
      var (rest, end) := RunRemote(mid, calls[1..]);
      ([a] + rest, end)
  }

  ghost function RunReference(records: Records, calls: seq<RegistryCall>): (seq<Answer>, Records)
    decreases |calls|
  {
    if calls == [] then ([], records)
    else
      var (a, mid) := Reached(records, Reference(records, calls[0].op), calls[0].fault);
      var (rest, end) := RunReference(mid, calls[1..]);
      ([a] + rest, end)
  }

  /** The same for every sequence of operations, each with its own fault: same
      answers, same records. */
  lemma {:induction false} RegistryRefinement(records: Records, calls: seq<RegistryCall>)
    requires forall c :: c in calls ==> c.op.ListOp? || IsDynamicClientId(Target(c.op))
    ensures RunRemote(records, calls) == RunReference(records, calls)
    decreases |calls|
  {
    if calls != [] {
      assert calls[0] in calls && forall c :: c in calls[1..] ==> c in calls;
      RemoteIsReference(records, calls[0].op);
      RegistryRefinement(Reached(records, Remote(records, calls[0].op), calls[0].fault).1, calls[1..]);
    }
  }

  /** `RegistryClient`: without a binding every operation fails; with one, a
      call may still fail on its way. */
  class RegistryClient {
    const stub: ClientRegistryState?

    constructor (stub: ClientRegistryState?)
      ensures this.stub == stub
    {
      this.stub := stub;
    }

    method Call(op: RegistryOp, fault: Fault) returns (answer: Answer)
      requires stub != null ==> stub.Valid()
      modifies stub
      ensures stub == null ==> answer == StoreError
      ensures stub != null ==> stub.Valid()
      ensures stub != null ==>
        (answer, View(stub.storage)) == Reached(old(View(stub.storage)), Remote(old(View(stub.storage)), op), fault)
    {
      if stub == null || fault == LostRequest { return StoreError; }
      var (verb, path, body) := Print(op);
      var reply := stub.Fetch(verb, path, body);
      answer := if fault == Delivered then ReadReply(op, reply) else StoreError;
    }
  }

  /** The registry as its callers see it (`DynamicClientRegistry`): the
      reference, behind a call that may fail. */
  method Ask(registry: InMemoryClientRegistry, op: RegistryOp, fault: Fault) returns (answer: Answer)
    requires KeyedById(registry.records)
    modifies registry
    ensures (answer, registry.records) == Reached(old(registry.records), Reference(old(registry.records), op), fault)
  {
    if fault == LostRequest { return StoreError; }
    answer := Perform(registry, op);
    if fault == LostReply { answer := StoreError; }
  }

  method Perform(registry: InMemoryClientRegistry, op: RegistryOp) returns (answer: Answer)
    requires KeyedById(registry.records)
    modifies registry
    ensures (answer, registry.records) == Reference(old(registry.records), op)
  {
    match op {
      case GetOp(id) =>
        var r := registry.Get(id);
        answer := Found(r);
      case ListOp =>
        var out := registry.List();
        ListingUnique(registry.records, out, Listing(registry.records));
        answer := Listed(out);
      case InsertOp(record) =>
        var inserted := registry.Insert(record);
        answer := InsertedAnswer(inserted);
      case UpdateOp(id, m, now) =>
        var r := registry.UpdateMetadata(id, m, now);
        answer := Found(r);
      case StatusChange(id, status, now) =>
        var r := registry.SetStatus(id, status, now);
        answer := Found(r);
      case RotateOp(id, hash, now) =>
        var outcome := registry.RotateSecret(id, hash, now);
        answer := RotatedAnswer(outcome);
    }
  }
}
