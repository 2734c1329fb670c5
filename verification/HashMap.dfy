/** A concurrent hash map by open addressing, with deletion marks.
    Any number of insert and remove operations run as threads whose atomic loads and
    compare-and-swaps interleave arbitrarily.  Every operation takes effect on the set of bindings at
    one moment between its start and its end. */
module HashMap {
  import opened Options

  datatype Op = Insert(key: nat, value: int) | Remove(key: nat)

  /** An entry points to the pair made by an insert operation; that pair is the operation's own. */
  datatype Slot = Empty | Entry(op: nat, deleted: bool)

  datatype Result = Inserted | AlreadyIn | Overfull | Removed(value: int) | Absent

  /** Where an operation stands, c slots after the home of its key. */
  datatype Pc =
    | Waiting
    | Load(c: nat, i: nat)
    | CasEmpty(c: nat, i: nat)
    | CasReuse(c: nat, i: nat, seen: Slot)
    | Lookup(c: nat, i: nat)
    | CasDelete(c: nat, i: nat, seen: Slot)
    | Ended(result: Result)

  datatype Setup = Setup(m: nat, hash: nat -> nat, ops: seq<Op>) {

    predicate Valid() {
      m > 0
    }

    /** How many slots an insertion looks at before it gives up. */
    function Limit(): nat {
      if m < 1000 then m else 1000
    }

    function Home(k: nat): (i: nat)
      requires Valid()
      ensures i < m
    {
      hash(k) % m
    }

    function Next(i: nat): (j: nat)
      requires i < m
      ensures j < m
    {
      if i + 1 == m then 0 else i + 1
    }

    /** The slot c after the home of k. */
    function Probe(k: nat, c: nat): (i: nat)
      requires Valid()
      ensures i < m
    {
      if c == 0 then Home(k) else Next(Probe(k, c - 1))
    }

    predicate IsPair(s: Slot) {
      s.Entry? && s.op < |ops| && ops[s.op].Insert?
    }

    /** Insert, having seen an entry in slot i. */
    function Examine(k: nat, c: nat, i: nat, seen: Slot): Pc
      requires IsPair(seen) && i < m
    {
      if ops[seen.op].key != k then Load(c + 1, Next(i))
      else if seen.deleted then CasReuse(c, i, seen)
      else Ended(AlreadyIn)
    }

    predicate CanStep(H: seq<Slot>, t: nat, pc: Pc) {
      && Valid() && |H| == m && t < |ops| && (forall i :: 0 <= i < m && H[i].Entry? ==> IsPair(H[i]))
      && (pc.Load? || pc.CasEmpty? || pc.CasReuse? || pc.Lookup? || pc.CasDelete? ==> pc.i < m)
      && (pc.CasReuse? || pc.CasDelete? ==> IsPair(pc.seen))
    }

    /** One atomic access of operation t. */
    function Step(H: seq<Slot>, t: nat, pc: Pc): (seq<Slot>, Pc)
      requires CanStep(H, t, pc)
    {
      var k := ops[t].key;
      match pc
      case Waiting => (H, if ops[t].Insert? then Load(0, Home(k)) else Lookup(0, Home(k)))
      case Load(c, i) =>
        if c == Limit() then (H, Ended(Overfull))
        else (H, if H[i].Empty? then CasEmpty(c, i) else Examine(k, c, i, H[i]))
      case CasEmpty(c, i) =>
        if H[i].Empty? then (H[i := Entry(t, false)], Ended(Inserted)) else (H, Examine(k, c, i, H[i]))
      case CasReuse(c, i, seen) =>
        if H[i] == seen then (H[i := Entry(t, false)], Ended(Inserted)) else (H, Ended(AlreadyIn))
      case Lookup(c, i) =>
        if H[i].Empty? then (H, Ended(Absent))
        else if ops[H[i].op].key != k then (H, Lookup(c + 1, Next(i)))
        else (H, if H[i].deleted then Ended(Absent) else CasDelete(c, i, H[i]))
      case CasDelete(c, i, seen) =>
        if H[i] == seen then (H[i := seen.(deleted := true)], Ended(Removed(ops[seen.op].value)))
          else (H, Ended(Absent))
      case Ended(_) => (H, pc)
    }

    // ---------- the table ----------

    ghost predicate Has(H: seq<Slot>, i: nat, k: nat) {
      i < |H| && IsPair(H[i]) && ops[H[i].op].key == k
    }

    /** Slot i holds another key. */
    ghost predicate Other(H: seq<Slot>, i: nat, k: nat) {
      i < |H| && IsPair(H[i]) && ops[H[i].op].key != k
    }

    ghost predicate Probed(H: seq<Slot>, k: nat, c: nat)
      requires Valid()
    {
      forall e :: 0 <= e < c ==> Other(H, Probe(k, e), k)
    }

    /** Slot i is d slots after the home of k, and no slot in between is empty. */
    ghost predicate NoGap(H: seq<Slot>, i: nat, k: nat, d: nat)
      requires Valid()
    {
      Probe(k, d) == i && forall e :: 0 <= e < d ==> Probe(k, e) < |H| && H[Probe(k, e)].Entry?
    }

    ghost predicate TableInv(H: seq<Slot>)
      requires Valid()
    {
      && |H| == m && (forall i :: 0 <= i < m && H[i].Entry? ==> IsPair(H[i]))
      && (forall i, j, k :: Has(H, i, k) && Has(H, j, k) ==> i == j)
      && forall i, k :: Has(H, i, k) ==> exists d: nat :: NoGap(H, i, k, d)
    }

    /** An empty slot where the search for a key leads: the key is nowhere. */
    lemma EmptyMeansNowhere(H: seq<Slot>, k: nat, c: nat, i: nat)
      requires Valid() && TableInv(H) && Probed(H, k, c) && H[Probe(k, c)].Empty?
      ensures !Has(H, i, k)
    {
    }

    /** A slot that has a key keeps it. */
    ghost predicate KeepsKeys(H: seq<Slot>, H': seq<Slot>) {
      |H'| == |H| && forall i, k :: Has(H, i, k) ==> Has(H', i, k)
    }

    lemma StepKeepsKeys(H: seq<Slot>, t: nat, pc: Pc)
      requires CanStep(H, t, pc)
      requires pc.CasEmpty? ==> ops[t].Insert?
      requires pc.CasReuse? ==> ops[t].Insert? && ops[pc.seen.op].key == ops[t].key
      ensures KeepsKeys(H, Step(H, t, pc).0)
    {
    }

    lemma ProbedStays(H: seq<Slot>, H': seq<Slot>, k: nat, c: nat)
      requires Valid() && KeepsKeys(H, H') && Probed(H, k, c)
      ensures Probed(H', k, c)
    {
      forall e | 0 <= e < c ensures Other(H', Probe(k, e), k) {
        var i := Probe(k, e);
        assert Other(H, i, k) && Has(H, i, ops[H[i].op].key);
      }
    }

    lemma NoGapStays(H: seq<Slot>, H': seq<Slot>, i: nat, k: nat, d: nat)
      requires Valid() && TableInv(H) && KeepsKeys(H, H') && NoGap(H, i, k, d)
      ensures NoGap(H', i, k, d)
    {
      forall e | 0 <= e < d ensures H'[Probe(k, e)].Entry? {
        var j := Probe(k, e);
        assert Has(H, j, ops[H[j].op].key);
      }
    }

    /** Filling the empty slot that the search for an absent key leads to. */
    lemma FillKeepsTable(H: seq<Slot>, t: nat, c: nat)
      requires Valid() && TableInv(H) && t < |ops| && ops[t].Insert?
      requires Probed(H, ops[t].key, c) && H[Probe(ops[t].key, c)].Empty?
      ensures TableInv(H[Probe(ops[t].key, c) := Entry(t, false)])
    {
      var key, at := ops[t].key, Probe(ops[t].key, c);
      var H' := H[at := Entry(t, false)];
      forall i, k | Has(H', i, k) ensures Has(H, i, k) || (i == at && k == key) {
      }
      forall i: nat | true ensures !Has(H, i, key) {
        EmptyMeansNowhere(H, key, c, i);
      }
      assert KeepsKeys(H, H');
      forall i, k | Has(H', i, k) ensures exists d: nat :: NoGap(H', i, k, d) {
        if i == at {
          ProbedStays(H, H', key, c);
          assert NoGap(H', at, key, c);
        } else {
          var d: nat :| NoGap(H, i, k, d);
          NoGapStays(H, H', i, k, d);
        }
      }
    }

    /** Replacing an entry by one of the same key. */
    lemma ReplaceKeepsTable(H: seq<Slot>, i: nat, s: Slot)
      requires Valid() && TableInv(H) && i < m && IsPair(H[i]) && IsPair(s) && ops[s.op].key == ops[H[i].op].key
      ensures TableInv(H[i := s])
    {
      var H' := H[i := s];
      assert forall j, k :: Has(H', j, k) <==> Has(H, j, k);
      forall j, k | Has(H', j, k) ensures exists d: nat :: NoGap(H', j, k, d) {
        var d: nat :| NoGap(H, j, k, d);
        NoGapStays(H, H', j, k, d);
      }
    }

    // ---------- linearization ----------

    /** Some slot has the key, and its entry is not deleted. */
    ghost predicate Live(H: seq<Slot>, k: nat) {
      exists i: nat :: Has(H, i, k) && !H[i].deleted
    }

    /** The bindings are the pairs of the entries that are not deleted. */
    ghost predicate Binds(H: seq<Slot>, b: map<nat, int>) {
      && (forall i: nat, k: nat :: Has(H, i, k) && !H[i].deleted ==> k in b && b[k] == ops[H[i].op].value)
      && forall k :: k in b ==> Live(H, k)
    }

    /** What the completion of operation t does to the bindings. */
    ghost predicate Effect(t: nat, before: map<nat, int>, after: map<nat, int>) {
      t < |ops| && match ops[t]
        case Insert(k, v) => k !in before && after == before[k := v]
        case Remove(k) => k in before && after == before - {k}
    }

    /** The moments of a run: the bindings start empty and change only by the effects of operations. */
    ghost predicate Legal(trace: seq<Moment>) {
      && |trace| > 0 && trace[0] == Moment(None, map[])
      && forall c :: 0 < c < |trace| ==>
        if trace[c].who.None? then trace[c].bindings == trace[c - 1].bindings
        else Effect(trace[c].who.value, trace[c - 1].bindings, trace[c].bindings)
    }

    /** At some moment of [a, z] the key was bound, or was not. */
    ghost predicate Was(trace: seq<Moment>, a: nat, z: nat, k: nat, bound: bool) {
      exists c :: a <= c <= z && c < |trace| && (k in trace[c].bindings <==> bound)
    }

    /** Operation t, from moment a to moment z, gave a result that is right at some moment between; on an
        overflow all slots that an insertion looks at hold other keys. */
    ghost predicate Justified(H: seq<Slot>, trace: seq<Moment>, t: nat, a: nat, z: nat, r: Result)
      requires Valid() && t < |ops|
    {
      a < z < |trace| && match r
        case Inserted => ops[t].Insert? && trace[z].who == Some(t)
        case AlreadyIn => ops[t].Insert? && Was(trace, a, z, ops[t].key, true)
        case Overfull => ops[t].Insert? && Probed(H, ops[t].key, Limit())
        case Removed(v) => && ops[t].Remove? && trace[z].who == Some(t)
          && ops[t].key in trace[z - 1].bindings && trace[z - 1].bindings[ops[t].key] == v
        case Absent => ops[t].Remove? && Was(trace, a, z, ops[t].key, false)
    }

    /** What is known of operation t, started at moment a, at the last moment of the trace. */
    ghost predicate ThreadInv(H: seq<Slot>, trace: seq<Moment>, t: nat, a: nat, z: nat, pc: Pc)
      requires Valid() && t < |ops|
    {
      var k := ops[t].key;
      && (!pc.Waiting? ==> a < |trace|)
      && match pc
        case Waiting => true
        case Load(c, i) => ops[t].Insert? && i == Probe(k, c) && Probed(H, k, c) && c <= Limit()
        case CasEmpty(c, i) => ops[t].Insert? && i == Probe(k, c) && Probed(H, k, c) && c < Limit()
        case CasReuse(c, i, seen) => && ops[t].Insert? && IsPair(seen) && seen.deleted && ops[seen.op].key == k
          && Has(H, i, k) && (H[i] == seen || Was(trace, a, |trace| - 1, k, true))
        case Lookup(c, i) => ops[t].Remove? && i == Probe(k, c) && Probed(H, k, c)
        case CasDelete(c, i, seen) => && ops[t].Remove? && IsPair(seen) && !seen.deleted && ops[seen.op].key == k
          && Has(H, i, k) && (H[i] == seen || Was(trace, a, |trace| - 1, k, false))
        case Ended(r) => Justified(H, trace, t, a, z, r)
    }

    /** An operation takes effect at most once, when it ends. */
    ghost predicate Once(trace: seq<Moment>, ended: seq<nat>, pcs: seq<Pc>)
      requires |ended| == |pcs|
    {
      forall c :: 0 <= c < |trace| && trace[c].who.Some? ==>
        var t := trace[c].who.value;
        t < |pcs| && ended[t] == c && pcs[t].Ended? && (pcs[t].result.Inserted? || pcs[t].result.Removed?)
    }

    ghost predicate Inv(H: seq<Slot>, pcs: seq<Pc>, w: World) {
      && Valid() && |pcs| == |w.start| == |w.ended| == |ops|
      && TableInv(H) && Legal(w.trace) && Binds(H, w.trace[|w.trace| - 1].bindings)
      && Once(w.trace, w.ended, pcs)
      && forall t :: 0 <= t < |ops| ==> ThreadInv(H, w.trace, t, w.start[t], w.ended[t], pcs[t])
    }

    lemma InvMeansCanStep(H: seq<Slot>, pcs: seq<Pc>, w: World, t: nat)
      requires Inv(H, pcs, w) && t < |ops|
      ensures |pcs| == |ops| && CanStep(H, t, pcs[t])
    {
    }

    /** The moment that a step of t adds. */
    ghost function Now(w: World, t: nat, pc: Pc, pc': Pc): Moment
      requires |w.trace| > 0 && t < |ops|
    {
      var b := w.trace[|w.trace| - 1].bindings;
      if pc.Ended? || !pc'.Ended? then Moment(None, b)
      else if pc'.result.Inserted? && ops[t].Insert? then Moment(Some(t), b[ops[t].key := ops[t].value])
      else if pc'.result.Removed? then Moment(Some(t), b - {ops[t].key})
      else Moment(None, b)
    }

    ghost function Advance(w: World, t: nat, pc: Pc, pc': Pc): World
      requires |w.trace| > 0 && t < |ops| == |w.start| == |w.ended|
    {
      World(w.trace + [Now(w, t, pc, pc')],
        if pc.Waiting? then w.start[t := |w.trace|] else w.start,
        if pc'.Ended? && !pc.Ended? then w.ended[t := |w.trace|] else w.ended)
    }

    lemma WasStays(trace: seq<Moment>, now: Moment, a: nat, z: nat, z': nat, k: nat, bound: bool)
      requires Was(trace, a, z, k, bound) && z <= z'
      ensures Was(trace + [now], a, z', k, bound)
    {
      var c :| a <= c <= z && c < |trace| && (k in trace[c].bindings <==> bound);
      assert (trace + [now])[c] == trace[c];
    }

    lemma WasNow(trace: seq<Moment>, now: Moment, a: nat, k: nat, bound: bool)
      requires a <= |trace| && (k in now.bindings <==> bound)
      ensures Was(trace + [now], a, |trace|, k, bound)
    {
      assert (trace + [now])[|trace|] == now;
    }

    /** What a step may do to the table and the bindings, as the other operations see it. */
    ghost predicate Changes(H: seq<Slot>, H': seq<Slot>, b': map<nat, int>) {
      && KeepsKeys(H, H')
      && forall i: nat, k: nat :: Has(H, i, k) && H'[i] != H[i] ==> (k in b' <==> H[i].deleted)
    }

    /** The others keep what they know. */
    lemma OthersKeep(H: seq<Slot>, H': seq<Slot>, trace: seq<Moment>, now: Moment, t: nat, a: nat, z: nat, pc: Pc)
      requires Valid() && t < |ops| && ThreadInv(H, trace, t, a, z, pc) && Changes(H, H', now.bindings) && |H| == m
      ensures ThreadInv(H', trace + [now], t, a, z, pc)
    {
      hide KeepsKeys, Probed, Probe, Was;
      var k := ops[t].key;
      match pc
      case Waiting =>
      case Load(c, i) => ProbedStays(H, H', k, c);
      case CasEmpty(c, i) => ProbedStays(H, H', k, c);
      case Lookup(c, i) => ProbedStays(H, H', k, c);
      case CasReuse(c, i, seen) => SeenStays(H, H', trace, now, a, k, i, seen);
      case CasDelete(c, i, seen) => SeenStays(H, H', trace, now, a, k, i, seen);
      case Ended(r) =>
        JustifiedStays(H, H', trace, now, t, a, z, r);
    }

    lemma SeenStays(H: seq<Slot>, H': seq<Slot>, trace: seq<Moment>, now: Moment, a: nat, k: nat, i: nat, seen: Slot)
      requires Changes(H, H', now.bindings) && IsPair(seen) && ops[seen.op].key == k && Has(H, i, k) && a < |trace|
      requires H[i] == seen || Was(trace, a, |trace| - 1, k, seen.deleted)
      ensures Has(H', i, k) && (H'[i] == seen || Was(trace + [now], a, |trace|, k, seen.deleted))
    {
      if H[i] != seen {
        WasStays(trace, now, a, |trace| - 1, |trace|, k, seen.deleted);
      } else if H'[i] != H[i] {
        WasNow(trace, now, a, k, seen.deleted);
      }
    }

    lemma JustifiedStays(H: seq<Slot>, H': seq<Slot>, trace: seq<Moment>, now: Moment, t: nat, a: nat, z: nat,
        r: Result)
      requires Valid() && t < |ops| && Justified(H, trace, t, a, z, r) && KeepsKeys(H, H')
      ensures Justified(H', trace + [now], t, a, z, r)
    {
      hide KeepsKeys, Probed;
      match r
      case Overfull => ProbedStays(H, H', ops[t].key, Limit());
      case AlreadyIn => WasStays(trace, now, a, z, z, ops[t].key, true);
      case Absent => WasStays(trace, now, a, z, z, ops[t].key, false);
      case _ =>
    }

    // ---------- the steps ----------

    /** A write for an absent key: the entry is the only one of its key, and the others stand. */
    lemma InsertBinds(H: seq<Slot>, b: map<nat, int>, t: nat, i: nat)
      requires Valid() && |H| == m && Binds(H, b) && t < |ops| && ops[t].Insert? && i < m
      requires forall j: nat :: Has(H, j, ops[t].key) ==> j == i && H[j].deleted
      requires H[i].Empty? || Has(H, i, ops[t].key)
      ensures ops[t].key !in b && Binds(H[i := Entry(t, false)], b[ops[t].key := ops[t].value])
      ensures Changes(H, H[i := Entry(t, false)], b[ops[t].key := ops[t].value])
    {
      var H', key := H[i := Entry(t, false)], ops[t].key;
      assert !Live(H, key);
      assert Has(H', i, key);
      forall k: nat | k in b ensures Live(H', k) {
        var j: nat :| Has(H, j, k) && !H[j].deleted;
        assert Has(H', j, k);
      }
      forall j: nat, k: nat | Has(H', j, k) && !H'[j].deleted
        ensures k in b[key := ops[t].value] && b[key := ops[t].value][k] == ops[H'[j].op].value
      {
        assert j != i ==> Has(H, j, k);
      }
    }

    lemma DeleteBinds(H: seq<Slot>, b: map<nat, int>, i: nat, k: nat)
      requires Valid() && |H| == m && TableInv(H) && Binds(H, b) && Has(H, i, k) && !H[i].deleted
      ensures k in b && b[k] == ops[H[i].op].value && Binds(H[i := H[i].(deleted := true)], b - {k})
      ensures Changes(H, H[i := H[i].(deleted := true)], b - {k})
    {
      var H' := H[i := H[i].(deleted := true)];
      forall k': nat | k' in b - {k} ensures Live(H', k') {
        var j: nat :| Has(H, j, k') && !H[j].deleted;
        assert Has(H', j, k');
      }
      assert forall j: nat, k': nat :: Has(H', j, k') ==> Has(H, j, k');
    }

    /** What a step keeps of the table and the bindings. */
    lemma StepKeepsTable(H: seq<Slot>, pcs: seq<Pc>, w: World, t: nat)
      requires Inv(H, pcs, w) && t < |ops| && CanStep(H, t, pcs[t])
      ensures
        var (H', pc') := Step(H, t, pcs[t]);
        var now := Now(w, t, pcs[t], pc');
        && TableInv(H') && Binds(H', now.bindings) && Changes(H, H', now.bindings)
        && (now.who == None || (now.who == Some(t) && Effect(t, w.trace[|w.trace| - 1].bindings, now.bindings)))
    {
      hide Once, Justified, Was, NoGap, TableInv, Binds, Changes, KeepsKeys, Probed;
      var pc, b, k := pcs[t], w.trace[|w.trace| - 1].bindings, ops[t].key;
      assert ThreadInv(H, w.trace, t, w.start[t], w.ended[t], pc);
      NothingChanges(H, b);
      match pc
      case CasEmpty(c, i) =>
        if H[i].Empty? {
          FillKeepsTable(H, t, c);
          forall j: nat | true ensures !Has(H, j, k) {
            EmptyMeansNowhere(H, k, c, j);
          }
          InsertBinds(H, b, t, i);
        }
      case CasReuse(c, i, seen) =>
        if H[i] == seen {
          ReplaceKeepsTable(H, i, Entry(t, false));
          OneEntry(H, i, k);
          InsertBinds(H, b, t, i);
        }
      case CasDelete(c, i, seen) =>
        if H[i] == seen {
          ReplaceKeepsTable(H, i, seen.(deleted := true));
          DeleteBinds(H, b, i, k);
        }
      case _ =>
    }

    lemma NothingChanges(H: seq<Slot>, b: map<nat, int>)
      ensures Changes(H, H, b)
    {
    }

    lemma OneEntry(H: seq<Slot>, i: nat, k: nat)
      requires Valid() && TableInv(H) && Has(H, i, k)
      ensures forall j: nat :: Has(H, j, k) ==> j == i
    {
    }

    /** A slot with the key tells whether the key is bound, and to what. */
    lemma BoundIff(H: seq<Slot>, b: map<nat, int>, i: nat, k: nat)
      requires Valid() && TableInv(H) && Binds(H, b) && Has(H, i, k)
      ensures k in b <==> !H[i].deleted
      ensures k in b ==> b[k] == ops[H[i].op].value
    {
    }

    lemma NotBound(H: seq<Slot>, b: map<nat, int>, k: nat, c: nat)
      requires Valid() && TableInv(H) && Binds(H, b) && Probed(H, k, c) && H[Probe(k, c)].Empty?
      ensures k !in b
    {
    }

    lemma ProbedOneMore(H: seq<Slot>, k: nat, c: nat)
      requires Valid() && Probed(H, k, c) && Other(H, Probe(k, c), k)
      ensures Probed(H, k, c + 1)
    {
    }

    lemma ExamineKeeps(H: seq<Slot>, b: map<nat, int>, trace: seq<Moment>, now: Moment, t: nat, a: nat, c: nat)
      requires Valid() && TableInv(H) && Binds(H, b) && t < |ops| && ops[t].Insert? && a < |trace| && now.bindings == b
      requires Probed(H, ops[t].key, c) && c < Limit() && H[Probe(ops[t].key, c)].Entry?
      ensures IsPair(H[Probe(ops[t].key, c)])
      ensures ThreadInv(H, trace + [now], t, a, |trace|,
        Examine(ops[t].key, c, Probe(ops[t].key, c), H[Probe(ops[t].key, c)]))
    {
      var k := ops[t].key;
      var i := Probe(k, c);
      if ops[H[i].op].key != k {
        ProbedOneMore(H, k, c);
      } else {
        BoundIff(H, b, i, k);
        if !H[i].deleted {
          WasNow(trace, now, a, k, true);
        }
      }
    }

    /** What the stepping operation knows afterwards. */
    lemma StepKeepsOwn(H: seq<Slot>, pcs: seq<Pc>, w: World, t: nat)
      requires Inv(H, pcs, w) && t < |ops| && CanStep(H, t, pcs[t]) && !pcs[t].Ended?
      ensures
        var (H', pc') := Step(H, t, pcs[t]);
        && |w.start| == |w.ended| == |ops| && |w.trace| > 0
        && var a := if pcs[t].Waiting? then |w.trace| else w.start[t];
        ThreadInv(H', w.trace + [Now(w, t, pcs[t], pc')], t, a, |w.trace|, pc')
    {
      var pc, k, last := pcs[t], ops[t].key, |w.trace| - 1;
      var (H', pc') := Step(H, t, pc);
      var b, now, a := w.trace[last].bindings, Now(w, t, pc, pc'), w.start[t];
      assert ThreadInv(H, w.trace, t, a, w.ended[t], pc);
      hide Inv, Legal, Once, NoGap, TableInv, Binds, Changes, KeepsKeys, Probed, Was, Probe;
      match pc
      case Waiting =>
        assert Probed(H, k, 0) && Probe(k, 0) == Home(k) by { ProbedNone(H, k); }
      case Load(c, i) =>
        if c < Limit() && H[i].Entry? {
          ExamineKeeps(H, b, w.trace, now, t, a, c);
        }
      case CasEmpty(c, i) =>
        if H[i].Entry? {
          ExamineKeeps(H, b, w.trace, now, t, a, c);
        }
      case CasReuse(c, i, seen) =>
        if H[i] != seen {
          WasStays(w.trace, now, a, last, last + 1, k, true);
        }
      case Lookup(c, i) => LookupKeeps(H, b, w.trace, now, t, a, c);
      case CasDelete(c, i, seen) =>
        if H[i] != seen {
          WasStays(w.trace, now, a, last, last + 1, k, false);
        } else {
          BoundIff(H, b, i, k);
        }
    }

    lemma ProbedNone(H: seq<Slot>, k: nat)
      requires Valid()
      ensures Probed(H, k, 0) && Probe(k, 0) == Home(k)
    {
    }

    lemma LookupKeeps(H: seq<Slot>, b: map<nat, int>, trace: seq<Moment>, now: Moment, t: nat, a: nat, c: nat)
      requires Valid() && TableInv(H) && Binds(H, b) && t < |ops| && ops[t].Remove? && a < |trace| && now.bindings == b
      requires Probed(H, ops[t].key, c)
      ensures
        var i := Probe(ops[t].key, c);
        ThreadInv(H, trace + [now], t, a, |trace|, Step(H, t, Lookup(c, i)).1)
    {
      var k := ops[t].key;
      var i := Probe(k, c);
      if H[i].Empty? {
        NotBound(H, b, k, c);
        WasNow(trace, now, a, k, false);
      } else if ops[H[i].op].key != k {
        ProbedOneMore(H, k, c);
      } else {
        BoundIff(H, b, i, k);
        if H[i].deleted {
          WasNow(trace, now, a, k, false);
        }
      }
    }

    lemma LegalGrows(trace: seq<Moment>, now: Moment)
      requires Legal(trace)
      requires var last := trace[|trace| - 1].bindings;
        if now.who.None? then now.bindings == last else Effect(now.who.value, last, now.bindings)
      ensures Legal(trace + [now])
    {
    }

    /** The invariant survives every step of every operation; an operation that has ended does nothing. */
    lemma StepKeepsInv(H: seq<Slot>, pcs: seq<Pc>, w: World, t: nat)
      requires Inv(H, pcs, w) && t < |ops| && CanStep(H, t, pcs[t])
      ensures
        var (H', pc') := Step(H, t, pcs[t]);
        Inv(H', pcs[t := pc'], Advance(w, t, pcs[t], pc'))
    {
      var pc := pcs[t];
      var (H', pc') := Step(H, t, pc);
      var now, w' := Now(w, t, pc, pc'), Advance(w, t, pc, pc');
      StepKeepsTable(H, pcs, w, t);
      LegalGrows(w.trace, now);
      if !pc.Ended? {
        StepKeepsOwn(H, pcs, w, t);
      }
      forall u | 0 <= u < |ops| ensures ThreadInv(H', w'.trace, u, w'.start[u], w'.ended[u], pcs[t := pc'][u]) {
        if u == t && !pc.Ended? {
          StartAndEnd(H', w'.trace, t, if pc.Waiting? then |w.trace| else w.start[t], |w.trace|, w'.ended[t], pc');
        } else {
          assert ThreadInv(H, w.trace, u, w.start[u], w.ended[u], pcs[u]);
          OthersKeep(H, H', w.trace, now, u, w.start[u], w.ended[u], pcs[u]);
        }
      }
      OnceMore(w, pcs, t, pc, pc');
    }

    lemma StartAndEnd(H: seq<Slot>, trace: seq<Moment>, t: nat, a: nat, z: nat, z': nat, pc: Pc)
      requires Valid() && t < |ops| && ThreadInv(H, trace, t, a, z, pc) && (pc.Ended? ==> z == z')
      ensures ThreadInv(H, trace, t, a, z', pc)
    {
    }

    lemma OnceMore(w: World, pcs: seq<Pc>, t: nat, pc: Pc, pc': Pc)
      requires |w.trace| > 0 && |w.start| == |w.ended| == |pcs| == |ops| && Once(w.trace, w.ended, pcs)
      requires t < |ops| && pcs[t] == pc && (pc.Ended? ==> pc' == pc)
      ensures Once(Advance(w, t, pc, pc').trace, Advance(w, t, pc, pc').ended, pcs[t := pc'])
    {
    }

    // ---------- whole runs ----------

    ghost predicate Holds(at: Progress) {
      Inv(at.H, at.pcs, at.w)
    }

    ghost function First(): (at: Progress)
      requires Valid()
      ensures Holds(at)
    {
      var n := |ops|;
      Progress(seq(m, _ => Empty), seq(n, _ => Waiting), World([Moment(None, map[])], seq(n, _ => 0), seq(n, _ => 0)))
    }

    /** The run after one access of operation t. */
    ghost function After(at: Progress, t: nat): (at': Progress)
      requires Holds(at) && t < |ops|
      ensures Holds(at')
    {
      hide Step, Advance;
      InvMeansCanStep(at.H, at.pcs, at.w, t);
      StepKeepsInv(at.H, at.pcs, at.w, t);
      var (H', pc') := Step(at.H, t, at.pcs[t]);
      Progress(H', at.pcs[t := pc'], Advance(at.w, t, at.pcs[t], pc'))
    }

    ghost predicate Order(schedule: seq<nat>) {
      forall s :: 0 <= s < |schedule| ==> schedule[s] < |ops|
    }

    /** The run of the accesses that the schedule names, in its order, on an empty map: its last moment. */
    ghost function Exec(schedule: seq<nat>): (at: Progress)
      requires Valid() && Order(schedule)
      ensures Holds(at)
    {
      if schedule == [] then First() else After(Exec(schedule[..|schedule| - 1]), schedule[|schedule| - 1])
    }

    lemma ExecNothing()
      requires Valid()
      ensures
        var at := Exec([]);
        && |at.w.trace| == 1 && at.H == seq(m, _ => Empty) && at.pcs == seq(|ops|, _ => Waiting)
    {
    }

    lemma HoldsMeans(at: Progress)
      requires Holds(at)
      ensures |at.H| == m && |at.pcs| == |at.w.start| == |at.w.ended| == |ops|
      ensures |at.w.trace| > 0 && Binds(at.H, at.w.trace[|at.w.trace| - 1].bindings)
    {
    }

    /** What one more access changes. */
    lemma ExecStep(schedule: seq<nat>, s: nat)
      requires Valid() && Order(schedule) && s < |schedule|
      ensures Order(schedule[..s]) && Order(schedule[..s + 1])
      ensures
        var at, t := Exec(schedule[..s]), schedule[s];
        && |at.pcs| == |at.w.start| == |at.w.ended| == |ops| && |at.w.trace| > 0 && CanStep(at.H, t, at.pcs[t])
        && var (H', pc') := Step(at.H, t, at.pcs[t]);
        && !pc'.Waiting? && (at.pcs[t].Ended? ==> pc' == at.pcs[t])
        && Exec(schedule[..s + 1]) == Progress(H', at.pcs[t := pc'], Advance(at.w, t, at.pcs[t], pc'))
    {
      hide Holds, Advance;
      var at := Exec(schedule[..s]);
      assert schedule[..s + 1][..s] == schedule[..s];
      HoldsMeans(at);
      AtCanStep(at, schedule[s]);
    }

    lemma AtCanStep(at: Progress, t: nat)
      requires Holds(at) && t < |ops|
      ensures |at.pcs| == |ops| && CanStep(at.H, t, at.pcs[t])
    {
      hide Inv;
      InvMeansCanStep(at.H, at.pcs, at.w, t);
    }

    /** Each access adds a moment, and the bindings of moment s are those of the table after s accesses. */
    lemma {:induction false} MomentsOf(schedule: seq<nat>, n: nat, s: nat)
      requires Valid() && Order(schedule) && s <= n <= |schedule|
      ensures
        var trace := Exec(schedule[..n]).w.trace;
        && |trace| == n + 1 && trace[..s + 1] == Exec(schedule[..s]).w.trace
        && |Exec(schedule[..s]).H| == m && Binds(Exec(schedule[..s]).H, trace[s].bindings)
      decreases n
    {
      hide Exec, Holds, Step, CanStep, Binds, Now;
      HoldsMeans(Exec(schedule[..n]));
      if n == 0 {
        ExecNothing();
      } else {
        var s' := if s < n then s else n - 1;
        MomentsOf(schedule, n - 1, s');
        ExecStep(schedule, n - 1);
      }
    }

    /** Operation t has its first access at entry a - 1 of the schedule and its last, with which it ends,
        at entry z - 1: moments a and z follow them. */
    ghost predicate Interval(schedule: seq<nat>, t: nat, a: nat, z: nat)
      requires Valid() && Order(schedule) && t < |ops|
    {
      && 1 <= a <= z <= |schedule| && schedule[a - 1] == t == schedule[z - 1] && t !in schedule[..a - 1]
      && t < |Exec(schedule[..z - 1]).pcs| && !Exec(schedule[..z - 1]).pcs[t].Ended?
      && t < |Exec(schedule[..z]).pcs| && Exec(schedule[..z]).pcs[t].Ended?
    }

    /** When operation t started: with its first entry of the schedule. */
    lemma {:induction false} StartedAt(schedule: seq<nat>, n: nat, t: nat)
      requires Valid() && Order(schedule) && n <= |schedule| && t < |ops|
      ensures
        var at := Exec(schedule[..n]);
        && |at.pcs| == |at.w.start| == |ops| && (at.pcs[t].Waiting? <==> t !in schedule[..n])
        && (t in schedule[..n] ==>
          1 <= at.w.start[t] <= n && schedule[at.w.start[t] - 1] == t && t !in schedule[..at.w.start[t] - 1])
      decreases n
    {
      hide Exec, Holds, Step, CanStep, Now, Binds, TableInv, Legal;
      HoldsMeans(Exec(schedule[..n]));
      if n == 0 {
        ExecNothing();
      } else {
        MomentsOf(schedule, n - 1, n - 1);
        StartedAt(schedule, n - 1, t);
        ExecStep(schedule, n - 1);
        assert schedule[..n] == schedule[..n - 1] + [schedule[n - 1]];
      }
    }

    /** When operation t ended: nothing of it changes from then on. */
    lemma {:induction false} EndedAt(schedule: seq<nat>, n: nat, t: nat)
      requires Valid() && Order(schedule) && n <= |schedule| && t < |ops|
      requires t < |Exec(schedule[..n]).pcs| && Exec(schedule[..n]).pcs[t].Ended?
      ensures
        var at := Exec(schedule[..n]);
        && |at.w.start| == |at.w.ended| == |ops|
        && var a, z := at.w.start[t], at.w.ended[t];
        && z <= n && Interval(schedule, t, a, z)
        && var atEnd := Exec(schedule[..z]);
        && |atEnd.w.start| == |atEnd.w.ended| == |ops|
        && atEnd.pcs[t] == at.pcs[t] && atEnd.w.start[t] == a && atEnd.w.ended[t] == z
      decreases n
    {
      hide Exec, Holds, Step, CanStep, Now;
      HoldsMeans(Exec(schedule[..n]));
      if n == 0 {
        ExecNothing();
      } else {
        ExecStep(schedule, n - 1);
        MomentsOf(schedule, n - 1, n - 1);
        StartedAt(schedule, n, t);
        if Exec(schedule[..n - 1]).pcs[t].Ended? {
          EndedAt(schedule, n - 1, t);
        }
      }
    }

    /** How many accesses an operation has had, at most, before it ends. */
    ghost function Had(pc: Pc): nat {
      match pc
      case Waiting => 0
      case Load(c, _) => 2 * c + 1
      case CasEmpty(c, _) => 2 * c + 2
      case CasReuse(c, _, _) => 2 * c + 3
      case Lookup(c, _) => c + 1
      case CasDelete(c, _, _) => c + 2
      case Ended(_) => 0
    }

    lemma HadMore(H: seq<Slot>, t: nat, pc: Pc)
      requires CanStep(H, t, pc) && !pc.Ended?
      ensures var pc' := Step(H, t, pc).1; pc'.Ended? || Had(pc') > Had(pc)
    {
    }

    /** An operation about to swap is still at one of the slots that it may look at. */
    ghost predicate Near(pc: Pc) {
      (pc.CasReuse? ==> pc.c < Limit()) && (pc.CasDelete? ==> pc.c < m)
    }

    /** A key that has a slot is met in the first m places of its search. */
    lemma FoundSoon(H: seq<Slot>, k: nat, c: nat)
      requires Valid() && Probed(H, k, c) && Has(H, Probe(k, c), k)
      ensures c < m
    {
      var i, h := Probe(k, c), Home(k);
      var e := if h <= i then i - h else i + m - h;
      ProbeIs(this, k, e);
      assert Probe(k, e) == i;
    }

    lemma NearStays(at: Progress, t: nat)
      requires Holds(at) && t < |ops| && t < |at.pcs| && CanStep(at.H, t, at.pcs[t]) && Near(at.pcs[t])
      ensures Near(Step(at.H, t, at.pcs[t]).1)
    {
      var pc := at.pcs[t];
      assert ThreadInv(at.H, at.w.trace, t, at.w.start[t], at.w.ended[t], pc);
      hide Inv, Probed, Justified, Was;
      if pc.Lookup? && Step(at.H, t, pc).1.CasDelete? {
        FoundSoon(at.H, ops[t].key, pc.c);
      }
    }

    /** Every access of an operation that has not ended brings it further along the slots. */
    lemma {:induction false} AccessesCounted(schedule: seq<nat>, n: nat, t: nat)
      requires Valid() && Order(schedule) && n <= |schedule| && t < |ops|
      ensures
        var at := Exec(schedule[..n]);
        && |at.pcs| == |ops| && Near(at.pcs[t])
        && (!at.pcs[t].Ended? ==> multiset(schedule[..n])[t] <= Had(at.pcs[t]))
      decreases n
    {
      hide Exec, Holds, Step, CanStep, Now, Had, Near;
      HoldsMeans(Exec(schedule[..n]));
      if n == 0 {
        ExecNothing();
        WaitingIsNear();
      } else {
        AccessesCounted(schedule, n - 1, t);
        ExecStep(schedule, n - 1);
        assert schedule[..n] == schedule[..n - 1] + [schedule[n - 1]];
        var before := Exec(schedule[..n - 1]);
        if schedule[n - 1] == t {
          NearStays(before, t);
          if !before.pcs[t].Ended? {
            HadMore(before.H, t, before.pcs[t]);
          }
        }
      }
    }

    lemma WaitingIsNear()
      ensures Near(Waiting)
    {
    }

    /** An insertion that has not ended has had no more than two accesses for each slot that it may look at,
        and one. */
    lemma InsertionEnds(schedule: seq<nat>, t: nat)
      requires Valid() && Order(schedule) && t < |ops| && ops[t].Insert?
      requires multiset(schedule)[t] > 2001 || multiset(schedule)[t] > 2 * m + 1
      ensures |Exec(schedule).pcs| == |ops| && Exec(schedule).pcs[t].Ended?
    {
      hide *;
      AccessesCounted(schedule, |schedule|, t);
      assert schedule[..|schedule|] == schedule;
      if !Exec(schedule).pcs[t].Ended? {
        InsertionNear(Exec(schedule), t);
      }
    }

    lemma InsertionNear(at: Progress, t: nat)
      requires Holds(at) && t < |ops| && t < |at.pcs| && ops[t].Insert? && !at.pcs[t].Ended? && Near(at.pcs[t])
      ensures Had(at.pcs[t]) <= 2001 && Had(at.pcs[t]) <= 2 * m + 1
    {
      assert ThreadInv(at.H, at.w.trace, t, at.w.start[t], at.w.ended[t], at.pcs[t]);
      hide Inv, Probed, Justified, Was;
    }

    /** A removal that has not ended has had no more than one access for each slot, and one, unless no slot
        is empty. */
    lemma RemovalEnds(schedule: seq<nat>, t: nat, i: nat)
      requires Valid() && Order(schedule) && t < |ops| && ops[t].Remove? && multiset(schedule)[t] > m + 1
      requires i < m && i < |Exec(schedule).H| && Exec(schedule).H[i].Empty?
      ensures |Exec(schedule).pcs| == |ops| && Exec(schedule).pcs[t].Ended?
    {
      AccessesCounted(schedule, |schedule|, t);
      assert schedule[..|schedule|] == schedule;
      var at := Exec(schedule);
      HoldsMeans(at);
      assert ThreadInv(at.H, at.w.trace, t, at.w.start[t], at.w.ended[t], at.pcs[t]);
      hide Inv, Exec, Justified, Was, Holds;
      if at.pcs[t].Lookup? {
        SearchStops(at.H, ops[t].key, at.pcs[t].c, i);
      }
    }

    lemma SearchStops(H: seq<Slot>, k: nat, c: nat, i: nat)
      requires Valid() && |H| == m && Probed(H, k, c) && i < m && H[i].Empty?
      ensures c < m
    {
      var h := Home(k);
      var e := if h <= i then i - h else i + m - h;
      ProbeIs(this, k, e);
      assert Probe(k, e) == i;
    }

    /** The answer of an operation is right at some moment of its interval, in the run up to its end. */
    ghost predicate Answered(schedule: seq<nat>, t: nat, r: Result)
      requires Valid() && Order(schedule) && t < |ops|
    {
      exists a: nat, z: nat :: Interval(schedule, t, a, z)
        && Justified(Exec(schedule[..z]).H, Exec(schedule[..z]).w.trace, t, a, z, r)
    }

    lemma ItsAnswer(at: Progress, t: nat)
      requires Holds(at) && t < |ops| && t < |at.pcs| && at.pcs[t].Ended?
      ensures |at.w.start| == |at.w.ended| == |ops|
      ensures Justified(at.H, at.w.trace, t, at.w.start[t], at.w.ended[t], at.pcs[t].result)
    {
      assert ThreadInv(at.H, at.w.trace, t, at.w.start[t], at.w.ended[t], at.pcs[t]);
    }

    lemma AnswerIsRight(schedule: seq<nat>, t: nat)
      requires Valid() && Order(schedule) && t < |ops|
      requires t < |Exec(schedule).pcs| && Exec(schedule).pcs[t].Ended?
      ensures Answered(schedule, t, Exec(schedule).pcs[t].result)
    {
      hide Interval, Justified, Exec, Holds;
      assert schedule[..|schedule|] == schedule;
      EndedAt(schedule, |schedule|, t);
      var atEnd := Exec(schedule[..Exec(schedule).w.ended[t]]);
      HoldsMeans(atEnd);
      ItsAnswer(atEnd, t);
    }
  }

  /** A moment: the bindings, and the operation that just took effect, if one did. */
  datatype Moment = Moment(who: Option<nat>, bindings: map<nat, int>)

  /** The run so far, and at which moments the operations started and ended. */
  datatype World = World(trace: seq<Moment>, start: seq<nat>, ended: seq<nat>)

  datatype Progress = Progress(H: seq<Slot>, pcs: seq<Pc>, w: World)

  // ---------- consequences ----------

  /** Operation t took effect at moment c, on key k. */
  ghost predicate Took(setup: Setup, trace: seq<Moment>, c: nat, k: nat, insert: bool) {
    c < |trace| && trace[c].who.Some? && trace[c].who.value < |setup.ops|
    && var op := setup.ops[trace[c].who.value]; op.key == k && op.Insert? == insert
  }

  /** Without an insertion or a removal of k, k stays bound or unbound. */
  lemma {:induction false} Unchanged(setup: Setup, trace: seq<Moment>, c: nat, d: nat, k: nat, bound: bool)
    requires setup.Legal(trace) && c <= d < |trace| && (k in trace[c].bindings <==> bound)
    requires var other := !bound; forall e :: c < e <= d ==> !Took(setup, trace, e, k, other)
    ensures k in trace[d].bindings <==> bound
    decreases d - c
  {
    if c < d {
      Unchanged(setup, trace, c, d - 1, k, bound);
      assert !Took(setup, trace, d, k, !bound);
    }
  }

  lemma TookEffect(setup: Setup, trace: seq<Moment>, c: nat, k: nat, insert: bool)
    requires setup.Legal(trace)
    ensures Took(setup, trace, c, k, insert) ==>
      c > 0 && (k in trace[c].bindings <==> insert) && (k in trace[c - 1].bindings <==> !insert)
  {
    if Took(setup, trace, c, k, insert) {
      assert c > 0;
      assert setup.Effect(trace[c].who.value, trace[c - 1].bindings, trace[c].bindings);
    }
  }

  /** Between two successful insertions of a key, with none between them, there is exactly one
      successful removal of it. */
  lemma OneRemovalBetween(setup: Setup, trace: seq<Moment>, c: nat, d: nat, k: nat)
    requires setup.Legal(trace) && c < d && Took(setup, trace, c, k, true) && Took(setup, trace, d, k, true)
    requires forall e :: c < e < d ==> !Took(setup, trace, e, k, true)
    ensures exists e :: c < e < d && Took(setup, trace, e, k, false)
    ensures forall e, e' :: c < e < e' < d && Took(setup, trace, e, k, false) ==> !Took(setup, trace, e', k, false)
  {
    TookEffect(setup, trace, c, k, true);
    TookEffect(setup, trace, d, k, true);
    if forall e :: c < e < d ==> !Took(setup, trace, e, k, false) {
      Unchanged(setup, trace, c, d - 1, k, true);
    }
    forall e, e' | c < e < e' < d && Took(setup, trace, e, k, false) ensures !Took(setup, trace, e', k, false) {
      TookEffect(setup, trace, e, k, false);
      Unchanged(setup, trace, e, e' - 1, k, false);
      TookEffect(setup, trace, e', k, false);
    }
  }

  /** The slots c places after the home of a key, for c up to m, are all the slots. */
  lemma {:induction false} ProbeIs(setup: Setup, k: nat, c: nat)
    requires setup.Valid() && c < setup.m
    ensures var h := setup.Home(k); setup.Probe(k, c) == if h + c < setup.m then h + c else h + c - setup.m
  {
    if c > 0 {
      ProbeIs(setup, k, c - 1);
    }
  }

  /** The slot c places after the home of a key, around the end. */
  function SlotFrom(setup: Setup, key: nat, c: nat): nat
    requires setup.m > 0
  {
    (setup.hash(key) % setup.m + c) % setup.m
  }

  lemma ProbeAt(setup: Setup, k: nat, c: nat)
    requires setup.Valid() && c < setup.m
    ensures setup.Probe(k, c) == SlotFrom(setup, k, c)
  {
    ProbeIs(setup, k, c);
    Around(setup.Home(k), c, setup.m);
  }

  lemma Around(h: nat, c: nat, m: nat)
    requires h < m && c < m
    ensures (h + c) % m == if h + c < m then h + c else h + c - m
  {
  }

  /** The first 1000 slots from the home of the key on, or all if there are fewer, hold other keys. */
  ghost predicate FullFor(setup: Setup, H: seq<Slot>, key: nat)
    requires setup.m > 0
  {
    forall c: nat :: c < 1000 && c < setup.m ==> setup.Other(H, SlotFrom(setup, key, c), key)
  }

  lemma ProbedMeans(setup: Setup, H: seq<Slot>, key: nat, c: nat, limit: nat)
    requires setup.Valid() && setup.Probed(H, key, limit) && c < limit && c < setup.m
    ensures setup.Other(H, SlotFrom(setup, key, c), key)
  {
    ProbeAt(setup, key, c);
    assert setup.Other(H, setup.Probe(key, c), key);
  }

  /** An insertion reports an overflow only when the first 1000 slots that it may use, or all slots if there
      are fewer, hold other keys. */
  lemma OverfullMeansFull(setup: Setup, H: seq<Slot>, pcs: seq<Pc>, w: World, t: nat)
    requires setup.Inv(H, pcs, w) && t < |setup.ops| && pcs[t] == Ended(Overfull)
    ensures FullFor(setup, H, setup.ops[t].key)
  {
    var k := setup.ops[t].key;
    assert setup.ThreadInv(H, w.trace, t, w.start[t], w.ended[t], pcs[t]);
    hide Setup.Inv, Setup.Probed, Setup.Other, SlotFrom;
    forall c: nat | c < 1000 && c < setup.m ensures setup.Other(H, SlotFrom(setup, k, c), k) {
      ProbedMeans(setup, H, k, c, setup.Limit());
    }
  }

  /** The keys of the insertions. */
  function KeysOf(ops: seq<Op>): set<nat> {
    set t | 0 <= t < |ops| && ops[t].Insert? :: ops[t].key
  }

  /** K are the keys in the first n slots from the home of a key on. */
  ghost predicate KeysFrom(setup: Setup, H: seq<Slot>, key: nat, n: nat, K: set<nat>)
    requires setup.m > 0
  {
    forall k :: k in K ==> exists c: nat :: c < n && setup.Has(H, SlotFrom(setup, key, c), k)
  }

  lemma OnePlace(setup: Setup, H: seq<Slot>, key: nat, c: nat, d: nat, k: nat)
    requires setup.Valid() && setup.TableInv(H) && c < setup.m && d < setup.m
    requires setup.Has(H, SlotFrom(setup, key, c), k) && setup.Has(H, SlotFrom(setup, key, d), k)
    ensures c == d
  {
    Around(setup.Home(key), c, setup.m);
    Around(setup.Home(key), d, setup.m);
  }

  /** They are n keys of insertions, all different, and none is the key. */
  lemma {:induction false} KeysDiffer(setup: Setup, H: seq<Slot>, key: nat, n: nat) returns (K: set<nat>)
    requires setup.Valid() && setup.TableInv(H) && n <= setup.m && n <= 1000 && FullFor(setup, H, key)
    ensures |K| == n && K <= KeysOf(setup.ops) && key !in K && KeysFrom(setup, H, key, n, K)
    decreases n
  {
    K := {};
    if n > 0 {
      var K0 := KeysDiffer(setup, H, key, n - 1);
      var i := SlotFrom(setup, key, n - 1);
      assert setup.Other(H, i, key);
      var k := setup.ops[H[i].op].key;
      assert setup.Has(H, i, k) && k in KeysOf(setup.ops);
      hide Setup.TableInv, Setup.Has, FullFor, SlotFrom;
      forall c: nat | c < n - 1 ensures !setup.Has(H, SlotFrom(setup, key, c), k) {
        if setup.Has(H, SlotFrom(setup, key, c), k) {
          OnePlace(setup, H, key, c, n - 1, k);
        }
      }
      K := K0 + {k};
    }
  }

  /** So an overflow takes more keys than that many slots. */
  lemma OverfullTakesKeys(setup: Setup, H: seq<Slot>, key: nat)
    requires setup.Valid() && setup.TableInv(H) && FullFor(setup, H, key) && key in KeysOf(setup.ops)
    ensures |KeysOf(setup.ops)| > 1000 || |KeysOf(setup.ops)| > setup.m
  {
    var K := KeysDiffer(setup, H, key, if setup.m < 1000 then setup.m else 1000);
    assert K + {key} <= KeysOf(setup.ops);
    Fits(K + {key}, KeysOf(setup.ops));
  }

  lemma Fits(xs: set<nat>, ys: set<nat>)
    requires xs <= ys
    ensures |xs| <= |ys|
  {
    assert ys == xs + (ys - xs);
  }

  // ---------- the run ----------

  /** One atomic access to the slots. */
  method Access(setup: Setup, H: array<Slot>, t: nat, pc: Pc) returns (pc': Pc)
    requires setup.CanStep(H[..], t, pc)
    modifies H
    ensures (H[..], pc') == setup.Step(old(H[..]), t, pc)
  {
    var k := setup.ops[t].key;
    match pc
    case Waiting =>
      pc' := if setup.ops[t].Insert? then Load(0, setup.Home(k)) else Lookup(0, setup.Home(k));
    case Load(c, i) =>
      if c == setup.Limit() {
        return Ended(Overfull);
      }
      var seen := H[i];
      pc' := if seen.Empty? then CasEmpty(c, i) else setup.Examine(k, c, i, seen);
    case CasEmpty(c, i) =>
      if H[i].Empty? {
        H[i] := Entry(t, false);
        pc' := Ended(Inserted);
      } else {
        pc' := setup.Examine(k, c, i, H[i]);
      }
    case CasReuse(c, i, seen) =>
      if H[i] == seen {
        H[i] := Entry(t, false);
        pc' := Ended(Inserted);
      } else {
        pc' := Ended(AlreadyIn);
      }
    case Lookup(c, i) =>
      var seen := H[i];
      if seen.Empty? {
        pc' := Ended(Absent);
      } else if setup.ops[seen.op].key != k {
        pc' := Lookup(c + 1, setup.Next(i));
      } else {
        pc' := if seen.deleted then Ended(Absent) else CasDelete(c, i, seen);
      }
    case CasDelete(c, i, seen) =>
      if H[i] == seen {
        H[i] := seen.(deleted := true);
        pc' := Ended(Removed(setup.ops[seen.op].value));
      } else {
        pc' := Ended(Absent);
      }
    case Ended(_) => pc' := pc;
  }

  /** The moments of a run: the bindings of its tables, changed only by the operations that report success. */
  ghost predicate Moments(setup: Setup, schedule: seq<nat>)
    requires setup.Valid() && setup.Order(schedule)
  {
    var last := setup.Exec(schedule);
    && |last.w.trace| == |schedule| + 1 && setup.Legal(last.w.trace)
    && (forall s :: 0 <= s <= |schedule| ==> setup.Binds(setup.Exec(schedule[..s]).H, last.w.trace[s].bindings))
    && |last.pcs| == |last.w.ended| && setup.Once(last.w.trace, last.w.ended, last.pcs)
  }

  /** The bindings of a run pass through legal moments. */
  lemma RunIsLegal(setup: Setup, schedule: seq<nat>)
    requires setup.Valid() && setup.Order(schedule)
    ensures Moments(setup, schedule)
  {
    assert schedule[..|schedule|] == schedule;
    forall s | 0 <= s <= |schedule|
      ensures |setup.Exec(schedule).w.trace| == |schedule| + 1 && |setup.Exec(schedule[..s]).H| == setup.m
      ensures setup.Binds(setup.Exec(schedule[..s]).H, setup.Exec(schedule).w.trace[s].bindings)
    {
      setup.MomentsOf(schedule, |schedule|, s);
    }
  }

  /** How often the schedule names operation t. */
  ghost function Turns(schedule: seq<nat>, t: nat): nat {
    multiset(schedule)[t]
  }

  /** An insertion has had more than two accesses for each slot that it may look at, and one; a removal more than
      one for each slot, and one, and some slot is empty. */
  ghost predicate HadEnough(setup: Setup, schedule: seq<nat>, H: seq<Slot>, t: nat) {
    t < |setup.ops| && match setup.ops[t]
      case Insert(_, _) => Turns(schedule, t) > 2001 || Turns(schedule, t) > 2 * setup.m + 1
      case Remove(_) => Turns(schedule, t) > setup.m + 1 && exists i :: 0 <= i < |H| && H[i].Empty?
  }

  /** Runs the operations on an empty map in the order the schedule names them, however long it is.
      The bindings pass through legal moments, and every operation that ended gave a result that is
      right at a moment between its first and its last access.  An insertion overflows only when the slots it
      may look at hold other keys, which takes more keys than there are such slots; it ends after a bounded
      number of turns, and so does a removal while some slot is empty. */
  method Run(setup: Setup, schedule: seq<nat>) returns (H: array<Slot>, results: seq<Option<Result>>)
    requires setup.Valid() && setup.Order(schedule)
    ensures
      var last := setup.Exec(schedule);
      && H.Length == setup.m && H[..] == last.H && |results| == |last.pcs| == |setup.ops|
      && forall t :: 0 <= t < |results| ==> results[t] == if last.pcs[t].Ended? then Some(last.pcs[t].result) else None
    ensures Moments(setup, schedule)
    ensures forall t :: 0 <= t < |results| && results[t].Some? ==> setup.Answered(schedule, t, results[t].value)
    ensures forall t :: 0 <= t < |results| && results[t] == Some(Overfull) ==>
      setup.ops[t].Insert? && FullFor(setup, H[..], setup.ops[t].key)
    ensures |KeysOf(setup.ops)| <= 1000 && |KeysOf(setup.ops)| <= setup.m ==>
      forall t :: 0 <= t < |results| ==> results[t] != Some(Overfull)
    ensures forall t :: 0 <= t < |results| && HadEnough(setup, schedule, H[..], t) ==> results[t].Some?
  {
    var n := |setup.ops|;
    H := new Slot[setup.m](_ => Empty);
    var pcs: seq<Pc> := seq(n, _ => Waiting);
    hide *;
    assert schedule[..0] == [];
    for s := 0 to |schedule|
      invariant H.Length == setup.m && setup.Order(schedule[..s])
      invariant Progress(H[..], pcs, setup.Exec(schedule[..s]).w) == setup.Exec(schedule[..s])
    {
      var t := schedule[s];
      setup.ExecStep(schedule, s);
      var pc := Access(setup, H, t, pcs[t]);
      pcs := pcs[t := pc];
    }
    assert schedule[..|schedule|] == schedule;
    results := seq(n, t requires 0 <= t < n => if pcs[t].Ended? then Some(pcs[t].result) else None);
    forall t | 0 <= t < n && pcs[t].Ended? ensures setup.Answered(schedule, t, pcs[t].result) {
      setup.AnswerIsRight(schedule, t);
    }
    RunIsLegal(setup, schedule);
    RunOverflows(setup, schedule);
    forall t | 0 <= t < n && HadEnough(setup, schedule, H[..], t) ensures results[t].Some? {
      EnoughEnds(setup, schedule, t);
    }
  }

  lemma EnoughEnds(setup: Setup, schedule: seq<nat>, t: nat)
    requires setup.Valid() && setup.Order(schedule) && HadEnough(setup, schedule, setup.Exec(schedule).H, t)
    ensures |setup.Exec(schedule).pcs| == |setup.ops| && setup.Exec(schedule).pcs[t].Ended?
  {
    setup.HoldsMeans(setup.Exec(schedule));
    if setup.ops[t].Insert? {
      setup.InsertionEnds(schedule, t);
    } else {
      var H := setup.Exec(schedule).H;
      var i :| 0 <= i < |H| && H[i].Empty?;
      setup.RemovalEnds(schedule, t, i);
    }
  }

  /** When operations of a run overflow. */
  lemma RunOverflows(setup: Setup, schedule: seq<nat>)
    requires setup.Valid() && setup.Order(schedule)
    ensures
      var at := setup.Exec(schedule);
      && |at.pcs| == |setup.ops|
      && forall t :: 0 <= t < |at.pcs| && at.pcs[t] == Ended(Overfull) ==>
        setup.ops[t].Insert? && FullFor(setup, at.H, setup.ops[t].key)
        && (|KeysOf(setup.ops)| > 1000 || |KeysOf(setup.ops)| > setup.m)
  {
    var at := setup.Exec(schedule);
    setup.HoldsMeans(at);
    forall t | 0 <= t < |at.pcs| && at.pcs[t] == Ended(Overfull)
      ensures setup.ops[t].Insert? && FullFor(setup, at.H, setup.ops[t].key)
      ensures |KeysOf(setup.ops)| > 1000 || |KeysOf(setup.ops)| > setup.m
    {
      OverfullMeansFull(setup, at.H, at.pcs, at.w, t);
      assert setup.ThreadInv(at.H, at.w.trace, t, at.w.start[t], at.w.ended[t], at.pcs[t]);
      assert setup.ops[t].key in KeysOf(setup.ops);
      OverfullTakesKeys(setup, at.H, setup.ops[t].key);
    }
  }

  /** One of the first i slots binds k. */
  ghost predicate Listed(setup: Setup, H: seq<Slot>, i: nat, k: nat) {
    exists j: nat :: j < i && setup.Has(H, j, k) && !H[j].deleted
  }

  lemma ListedOneMore(setup: Setup, H: seq<Slot>, i: nat, k: nat)
    requires i < |H|
    ensures Listed(setup, H, i + 1, k) <==> Listed(setup, H, i, k) || (setup.Has(H, i, k) && !H[i].deleted)
  {
  }

  lemma ListedAll(setup: Setup, H: seq<Slot>, b: map<nat, int>, k: nat)
    requires setup.Valid() && setup.TableInv(H) && setup.Binds(H, b)
    ensures Listed(setup, H, |H|, k) <==> k in b
  {
  }

  /** The keys listed while nothing runs: those that are bound, each once. */
  method Keys(setup: Setup, H: seq<Slot>, ghost b: map<nat, int>) returns (keys: seq<nat>)
    requires setup.Valid() && setup.TableInv(H) && setup.Binds(H, b)
    ensures forall k: nat :: k in keys <==> k in b
    ensures forall i, j :: 0 <= i < j < |keys| ==> keys[i] != keys[j]
  {
    hide Listed, Setup.Binds;
    keys := [];
    assert forall k: nat :: !Listed(setup, H, 0, k) by { NothingListed(setup, H); }
    for i := 0 to |H|
      invariant forall k: nat :: k in keys <==> Listed(setup, H, i, k)
      invariant forall x, y :: 0 <= x < y < |keys| ==> keys[x] != keys[y]
    {
      forall k: nat | true
        ensures Listed(setup, H, i + 1, k) <==> Listed(setup, H, i, k) || (setup.Has(H, i, k) && !H[i].deleted)
      {
        ListedOneMore(setup, H, i, k);
      }
      if H[i].Entry? && !H[i].deleted {
        var k := setup.ops[H[i].op].key;
        NotListedYet(setup, H, i, k);
        keys := keys + [k];
      }
    }
    forall k: nat | true ensures Listed(setup, H, |H|, k) <==> k in b {
      ListedAll(setup, H, b, k);
    }
  }

  lemma NothingListed(setup: Setup, H: seq<Slot>)
    ensures forall k: nat :: !Listed(setup, H, 0, k)
  {
  }

  lemma NotListedYet(setup: Setup, H: seq<Slot>, i: nat, k: nat)
    requires setup.Valid() && setup.TableInv(H) && setup.Has(H, i, k)
    ensures !Listed(setup, H, i, k)
  {
  }
}
