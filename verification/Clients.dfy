/**
  Which mask cell a client and its sub-clients read. A client is built field by field, sub-clients point
  back at it, value copies share its cell, and a clone gets a cell of its own.
 */
module Clients {
  import opened Options
  import opened ErrorMask

  /** The atomic word behind a client's mask. */
  class MaskRef {
    var value: Mask

    constructor (m: Mask)
      ensures value == m
    {
      value := m;
    }

    method CompareAndSwap(prev: Mask, next: Mask) returns (ok: bool)
      modifies this
      ensures ok <==> old(value) == prev
      ensures value == if ok then next else old(value)
    {
      ok := value == prev;
      if ok {
        value := next;
      }
    }
  }

  datatype SubClient = SubClient(apiClient: Client?)

  datatype IndicesClient = IndicesClient(apiClient: Client?, alias: SubClient, mapping: SubClient, settings: SubClient)

  datatype SnapshotClient = SnapshotClient(apiClient: Client?, repository: SubClient)

  datatype IndicesField = Index | Indices | Indexes

  /** Every field path that leads to a sub-client. */
  datatype Path =
    | Cat | Cluster | Dangling | Doc | Document | Nodes | PIT | PointInTime | Ingest | Tasks | Scroll
    | SearchPipeline | Snapshot | Repository
    | IndicesPath(f: IndicesField) | AliasPath(f: IndicesField) | MappingPath(f: IndicesField)
    | SettingsPath(f: IndicesField)

  datatype MaskConflict = MaskConflict(expected: Mask, actual: Mask)

  class Client {
    const root: nat            // which underlying opensearch client it wraps
    const errors: MaskRef
    var cat: SubClient
    var cluster: SubClient
    var dangling: SubClient
    var doc: SubClient
    var document: SubClient
    var index: IndicesClient
    var indices: IndicesClient
    var indexes: IndicesClient
    var nodes: SubClient
    var pit: SubClient
    var pointInTime: SubClient
    var ingest: SubClient
    var tasks: SubClient
    var scroll: SubClient
    var searchPipeline: SubClient
    var snapshot: SnapshotClient

    /** The struct literal: every other field is its zero value. */
    constructor (root: nat, errors: MaskRef)
      ensures this.root == root && this.errors == errors
    {
      this.root, this.errors := root, errors;
      var none := SubClient(null);
      var noIndices := IndicesClient(null, none, none, none);
      cat, cluster, dangling, doc, document := none, none, none, none, none;
      index, indices, indexes := noIndices, noIndices, noIndices;
      nodes, pit, pointInTime, ingest, tasks, scroll, searchPipeline := none, none, none, none, none, none, none;
      snapshot := SnapshotClient(null, none);
    }

    /** A value copy of the struct. */
    constructor Copy(c: Client)
      ensures root == c.root && errors == c.errors
      ensures forall p: Path :: Reach(p) == c.Reach(p)
    {
      root, errors := c.root, c.errors;
      cat, cluster, dangling, doc, document := c.cat, c.cluster, c.dangling, c.doc, c.document;
      index, indices, indexes := c.index, c.indices, c.indexes;
      nodes, pit, pointInTime := c.nodes, c.pit, c.pointInTime;
      ingest, tasks, scroll := c.ingest, c.tasks, c.scroll;
      searchPipeline, snapshot := c.searchPipeline, c.snapshot;
    }

    function IndicesOf(f: IndicesField): IndicesClient
      reads this
    {
      match f case Index => index case Indices => indices case Indexes => indexes
    }

    /** The client a sub-client reads its mask through. */
    function Reach(p: Path): Client?
      reads this
    {
      match p
      case Cat => cat.apiClient
      case Cluster => cluster.apiClient
      case Dangling => dangling.apiClient
      case Doc => doc.apiClient
      case Document => document.apiClient
      case Nodes => nodes.apiClient
      case PIT => pit.apiClient
      case PointInTime => pointInTime.apiClient
      case Ingest => ingest.apiClient
      case Tasks => tasks.apiClient
      case Scroll => scroll.apiClient
      case SearchPipeline => searchPipeline.apiClient
      case Snapshot => snapshot.apiClient
      case Repository => snapshot.repository.apiClient
      case IndicesPath(f) => IndicesOf(f).apiClient
      case AliasPath(f) => IndicesOf(f).alias.apiClient
      case MappingPath(f) => IndicesOf(f).mapping.apiClient
      case SettingsPath(f) => IndicesOf(f).settings.apiClient
    }

    /** Every sub-client, however deep and under whichever alias, reads through `home`. */
    ghost predicate WiredTo(home: Client)
      reads this
    {
      forall p: Path :: Reach(p) == home
    }

    /** The sub-clients of the first level; those with sub-clients of their own start without them. */
    method AssignSubClients()
      modifies this
      ensures FirstLevel()
      ensures index == IndicesClient(this, SubClient(null), SubClient(null), SubClient(null))
      ensures snapshot == SnapshotClient(this, SubClient(null))
    {
      var none := SubClient(null);
      cat := SubClient(this);
      cluster := SubClient(this);
      dangling := SubClient(this);
      doc := SubClient(this);
      index := IndicesClient(this, none, none, none);
      nodes := SubClient(this);
      pit := SubClient(this);
      ingest := SubClient(this);
      tasks := SubClient(this);
      scroll := SubClient(this);
      searchPipeline := SubClient(this);
      snapshot := SnapshotClient(this, none);
    }

    ghost predicate FirstLevel()
      reads this
    {
      var sub := SubClient(this);
      && cat == sub && cluster == sub && dangling == sub && doc == sub && nodes == sub && pit == sub
      && ingest == sub && tasks == sub && scroll == sub && searchPipeline == sub
    }

    /** The sub-clients of sub-clients. */
    method AssignNested()
      requires index.apiClient == this && snapshot.apiClient == this
      modifies this`index, this`snapshot
      ensures index == IndicesClient(this, SubClient(this), SubClient(this), SubClient(this))
      ensures snapshot == SnapshotClient(this, SubClient(this))
    {
      index := index.(alias := SubClient(this));
      index := index.(mapping := SubClient(this));
      index := index.(settings := SubClient(this));
      snapshot := snapshot.(repository := SubClient(this));
    }

    /** The second names; copied last, so that they carry the nested sub-clients too. */
    method AssignAliases()
      modifies this`document, this`indices, this`indexes, this`pointInTime
      ensures document == doc && indices == indexes == index && pointInTime == pit
    {
      document := doc;
      indices := index;
      indexes := index;
      pointInTime := pit;
    }

    lemma FieldsReachHome()
      requires FirstLevel()
      requires index == indices == indexes == IndicesClient(this, SubClient(this), SubClient(this), SubClient(this))
      requires snapshot == SnapshotClient(this, SubClient(this))
      requires document == doc && pointInTime == pit
      ensures WiredTo(this)
    {
    }

    method ErrorMask() returns (m: Mask)
      ensures m == errors.value
    {
      m := errors.value;
    }

    /** Sets the mask only from the expected value, and reports the value found otherwise. */
    method SetErrorMask(prev: Mask, next: Mask) returns (conflict: Option<MaskConflict>)
      modifies errors
      ensures conflict.None? <==> old(errors.value) == prev
      ensures errors.value == if conflict.None? then next else old(errors.value)
      ensures conflict.Some? ==> conflict.value == MaskConflict(prev, old(errors.value))
    {
      var swapped := errors.CompareAndSwap(prev, next);
      if swapped {
        return None;
      }
      var actual := ErrorMask();
      return Some(MaskConflict(prev, actual));
    }

    method Clone() returns (c: Client)
      ensures fresh(c) && fresh(c.errors)
      ensures c.root == root && c.errors.value == errors.value && c.WiredTo(c)
    {
      var mask := ErrorMask();
      c := ClientInit(root, mask);
    }
  }

  method ClientInit(root: nat, mask: Mask) returns (client: Client)
    ensures fresh(client) && fresh(client.errors)
    ensures client.root == root && client.errors.value == mask
    ensures client.WiredTo(client)
  {
    var cell := new MaskRef(mask);
    client := new Client(root, cell);
    client.AssignSubClients();
    client.AssignNested();
    client.AssignAliases();
    client.FieldsReachHome();
  }

  // ---------------------------------------------------------------------------
  // Runs of copies, clones and sets
  // ---------------------------------------------------------------------------

  /** An operation on the client at an index; indices wrap around. */
  datatype Op = CopyOf(i: nat) | CloneOf(i: nat) | SetOn(i: nat, prev: Mask, next: Mask)

  /** Which cell each client uses, and what each cell holds. */
  datatype World = World(cellOf: seq<nat>, cells: seq<Mask>)

  predicate Sane(w: World) {
    |w.cellOf| > 0 && forall i :: 0 <= i < |w.cellOf| ==> w.cellOf[i] < |w.cells|
  }

  function Cas(m: Mask, prev: Mask, next: Mask): Mask {
    if m == prev then next else m
  }

  function Apply(w: World, op: Op): (w': World)
    requires Sane(w)
    ensures Sane(w')
  {
    var l := w.cellOf[op.i % |w.cellOf|];
    match op
    case CopyOf(_) => w.(cellOf := w.cellOf + [l])
    case CloneOf(_) => World(w.cellOf + [|w.cells|], w.cells + [w.cells[l]])
    case SetOn(_, prev, next) => w.(cells := w.cells[l := Cas(w.cells[l], prev, next)])
  }

  function Replay(w: World, ops: seq<Op>): (w': World)
    requires Sane(w)
    ensures Sane(w')
    decreases |ops|
  {
    if ops == [] then w else Apply(Replay(w, ops[..|ops| - 1]), ops[|ops| - 1])
  }

  function Begin(seed: Mask): World {
    World([0], [seed])
  }

  /** What the clients of a run look like: one cell object per cell, one home client per cell, every client
      and sub-client on its own cell, and all of them on the one underlying client. */
  ghost predicate Matches(root: nat, clients: seq<Client>, homes: seq<Client>, w: World)
    reads clients, homes, set h | h in homes :: h.errors
  {
    && Sane(w) && |clients| == |w.cellOf| && |homes| == |w.cells|
    && (forall l :: 0 <= l < |homes| ==> homes[l].errors.value == w.cells[l])
    && (forall l, m :: 0 <= l < m < |homes| ==> homes[l].errors != homes[m].errors)
    && (forall i :: 0 <= i < |clients| ==>
          && clients[i].root == root
          && clients[i].errors == homes[w.cellOf[i]].errors
          && clients[i].WiredTo(homes[w.cellOf[i]]))
  }

  method Step(ghost root: nat, clients: seq<Client>, ghost homes: seq<Client>, ghost w: World, op: Op)
    returns (clients': seq<Client>, ghost homes': seq<Client>)
    requires Matches(root, clients, homes, w)
    modifies set h | h in homes :: h.errors
    ensures Matches(root, clients', homes', Apply(w, op))
    ensures forall l :: 0 <= l < |homes'| ==> homes'[l] in homes || (fresh(homes'[l]) && fresh(homes'[l].errors))
    ensures forall i :: 0 <= i < |clients'| ==> clients'[i] in clients || fresh(clients'[i])
  {
    clients', homes' := clients, homes;
    var c := clients[op.i % |clients|];
    assert c.errors == homes[w.cellOf[op.i % |clients|]].errors;
    if op.CopyOf? {
      var copy := new Client.Copy(c);
      clients' := clients + [copy];
    } else if op.CloneOf? {
      var clone := c.Clone();
      clients', homes' := clients + [clone], homes + [clone];
    } else {
      var conflict := c.SetErrorMask(op.prev, op.next);
    }
  }

  /** Over every run, each client reads the value the replay gives its cell, every sub-client reached through
      any of its fields reads the same cell, and two clients share a cell exactly when the replay says so. */
  method Run(root: nat, seed: Mask, ops: seq<Op>) returns (clients: seq<Client>)
    ensures |clients| == |Replay(Begin(seed), ops).cellOf|
    ensures forall i :: 0 <= i < |clients| ==>
      var w := Replay(Begin(seed), ops);
      clients[i].root == root && clients[i].errors.value == w.cells[w.cellOf[i]]
    ensures forall i, p: Path :: 0 <= i < |clients| ==>
      clients[i].Reach(p) != null && clients[i].Reach(p).errors == clients[i].errors
    ensures forall i, j :: 0 <= i < |clients| && 0 <= j < |clients| ==>
      var w := Replay(Begin(seed), ops);
      clients[i].errors == clients[j].errors <==> w.cellOf[i] == w.cellOf[j]
  {
    var first := ClientInit(root, seed);
    clients := [first];
    ghost var homes := [first];
    assert ops[..0] == [];
    for k := 0 to |ops|
      invariant forall l :: 0 <= l < |homes| ==> fresh(homes[l]) && fresh(homes[l].errors)
      invariant forall i :: 0 <= i < |clients| ==> fresh(clients[i])
      invariant Matches(root, clients, homes, Replay(Begin(seed), ops[..k]))
    {
      assert ops[..k + 1][..k] == ops[..k];
      clients, homes := Step(root, clients, homes, Replay(Begin(seed), ops[..k]), ops[k]);
    }
    assert ops[..|ops|] == ops;
    ghost var w := Replay(Begin(seed), ops);
    forall i, p: Path | 0 <= i < |clients|
      ensures clients[i].Reach(p) != null && clients[i].Reach(p).errors == clients[i].errors
    {
      assert clients[i].WiredTo(homes[w.cellOf[i]]);
    }
    forall i, j | 0 <= i < |clients| && 0 <= j < |clients|
      ensures clients[i].errors == clients[j].errors <==> w.cellOf[i] == w.cellOf[j]
    {
      assert clients[i].errors == homes[w.cellOf[i]].errors && clients[j].errors == homes[w.cellOf[j]].errors;
    }
  }

  // ---------------------------------------------------------------------------
  // Copies share, clones do not
  // ---------------------------------------------------------------------------

  /** How a client came about. */
  datatype Birth = Built | CopyFrom(of: nat) | CloneFrom(of: nat)

  function Births(ops: seq<Op>): (bs: seq<Birth>)
    ensures bs != [] && forall k :: 0 <= k < |bs| && bs[k].CopyFrom? ==> bs[k].of < k
  {
    if ops == [] then [Built]
    else
      var bs, op := Births(ops[..|ops| - 1]), ops[|ops| - 1];
      match op
      case CopyOf(i) => bs + [CopyFrom(i % |bs|)]
      case CloneOf(i) => bs + [CloneFrom(i % |bs|)]
      case SetOn(_, _, _) => bs
  }

  /** The client at the start of a chain of copies. */
  function Founder(bs: seq<Birth>, k: nat): (j: nat)
    requires k < |bs| && forall i :: 0 <= i < |bs| && bs[i].CopyFrom? ==> bs[i].of < i
    ensures j <= k
    decreases k
  {
    if bs[k].CopyFrom? then Founder(bs, bs[k].of) else k
  }

  lemma {:induction false} FounderOfPrefix(bs: seq<Birth>, b: Birth, k: nat)
    requires k < |bs| && forall i :: 0 <= i < |bs| && bs[i].CopyFrom? ==> bs[i].of < i
    requires b.CopyFrom? ==> b.of < |bs|
    ensures Founder(bs + [b], k) == Founder(bs, k)
    decreases k
  {
    if bs[k].CopyFrom? {
      FounderOfPrefix(bs, b, bs[k].of);
    }
  }

  /** Two clients of a run share a cell exactly when chains of copies, without a clone in them, lead from
      both back to the same client. */
  lemma {:induction false} CopiesAndOnlyCopiesShare(seed: Mask, ops: seq<Op>)
    ensures var w, bs := Replay(Begin(seed), ops), Births(ops);
            && |w.cellOf| == |bs|
            && forall i, j :: 0 <= i < |bs| && 0 <= j < |bs| ==>
                 (w.cellOf[i] == w.cellOf[j] <==> Founder(bs, i) == Founder(bs, j))
    decreases |ops|
  {
    if ops != [] {
      var before, op := ops[..|ops| - 1], ops[|ops| - 1];
      CopiesAndOnlyCopiesShare(seed, before);
      if !op.SetOn? {
        var bs, n := Births(before), |Births(before)|;
        var b := if op.CopyOf? then CopyFrom(op.i % n) else CloneFrom(op.i % n);
        assert Births(ops) == bs + [b];
        forall k | 0 <= k < n ensures Founder(Births(ops), k) == Founder(bs, k) {
          FounderOfPrefix(bs, b, k);
        }
        assert Founder(Births(ops), n) == if op.CopyOf? then Founder(bs, op.i % n) else n;
      }
    }
  }

  // ---------------------------------------------------------------------------
  // A clone is independent
  // ---------------------------------------------------------------------------

  /** The sets among `ops`, starting in world `w`, that address a client of cell `l`. */
  function SetsOf(w: World, ops: seq<Op>, l: nat): seq<(Mask, Mask)>
    requires Sane(w)
    decreases |ops|
  {
    if ops == [] then []
    else
      var before, op := ops[..|ops| - 1], ops[|ops| - 1];
      var cellOf := Replay(w, before).cellOf;
      if op.SetOn? && cellOf[op.i % |cellOf|] == l then SetsOf(w, before, l) + [(op.prev, op.next)]
      else SetsOf(w, before, l)
  }

  function CasAll(m: Mask, sets: seq<(Mask, Mask)>): Mask {
    if sets == [] then m
    else
      var last := sets[|sets| - 1];
      Cas(CasAll(m, sets[..|sets| - 1]), last.0, last.1)
  }

  /** What a cell holds depends only on its seed and the sets made through its own clients. */
  lemma {:induction false} CellDependsOnOwnSets(w: World, ops: seq<Op>, l: nat)
    requires Sane(w) && l < |w.cells|
    ensures l < |Replay(w, ops).cells|
    ensures Replay(w, ops).cells[l] == CasAll(w.cells[l], SetsOf(w, ops, l))
    decreases |ops|
  {
    if ops != [] {
      var before, op := ops[..|ops| - 1], ops[|ops| - 1];
      CellDependsOnOwnSets(w, before, l);
      if op.SetOn? {
        var sets := SetsOf(w, before, l) + [(op.prev, op.next)];
        assert sets[..|sets| - 1] == SetsOf(w, before, l);
      }
    }
  }

  lemma {:induction false} ReplayOfConcat(w: World, a: seq<Op>, b: seq<Op>)
    requires Sane(w)
    ensures Replay(w, a + b) == Replay(Replay(w, a), b)
    decreases |b|
  {
    if b == [] {
      assert a + b == a;
    } else {
      assert (a + b)[..|a + b| - 1] == a + b[..|b| - 1];
      ReplayOfConcat(w, a, b[..|b| - 1]);
    }
  }

  /** A clone made anywhere in a run gets a cell no earlier client has, seeded with the value its original had
      at that moment; from then on that cell changes only through the clone and its copies, and the
      original's cell is as if the clone had never been used. */
  lemma {:induction false} CloneIsIndependent(w: World, before: seq<Op>, i: nat, after: seq<Op>)
    requires Sane(w)
    ensures var v := Replay(w, before);
            var original := v.cellOf[i % |v.cellOf|];
            var born := Apply(v, CloneOf(i));
            var end := Replay(w, before + [CloneOf(i)] + after);
            && (forall j :: 0 <= j < |v.cellOf| ==> v.cellOf[j] != |v.cells|)
            && |v.cells| < |end.cells|
            && end.cells[|v.cells|] == CasAll(v.cells[original], SetsOf(born, after, |v.cells|))
            && end.cells[original] == CasAll(v.cells[original], SetsOf(born, after, original))
  {
    var v := Replay(w, before);
    var born := Apply(v, CloneOf(i));
    ReplayOfConcat(w, before, [CloneOf(i)]);
    assert [CloneOf(i)][..0] == [];
    ReplayOfConcat(w, before + [CloneOf(i)], after);
    CellDependsOnOwnSets(born, after, |v.cells|);
    CellDependsOnOwnSets(born, after, v.cellOf[i % |v.cellOf|]);
  }
}
