/** One rolling sequence of files per partition, with a bound on open files. */
module ParquetPartitioned {
  import opened Prelude
  import opened ParquetRolling

  /** The rows of one partition, in order. */
  function Select(rows: seq<Row>, keyOf: Row -> string, k: string): seq<Row> {
    if rows == [] then []
    else
      var last := rows[|rows| - 1];
      Select(rows[..|rows| - 1], keyOf, k) + if keyOf(last) == k then [last] else []
  }

  lemma {:induction false} SelectAppend(a: seq<Row>, b: seq<Row>, keyOf: Row -> string, k: string)
    ensures Select(a + b, keyOf, k) == Select(a, keyOf, k) + Select(b, keyOf, k)
    decreases |b|
  {
    if b == [] {
      assert a + b == a;
    } else {
      var few := b[..|b| - 1];
      assert (a + b)[..|a + b| - 1] == a + few;
      SelectAppend(a, few, keyOf, k);
    }
  }

  lemma {:induction false} SelectNone(rows: seq<Row>, keyOf: Row -> string, k: string)
    requires forall i | 0 <= i < |rows| :: keyOf(rows[i]) != k
    ensures Select(rows, keyOf, k) == []
    decreases |rows|
  {
    if rows != [] {
      SelectNone(rows[..|rows| - 1], keyOf, k);
    }
  }

  lemma {:induction false} SelectOnly(rows: seq<Row>, keyOf: Row -> string, k: string)
    ensures forall r | r in Select(rows, keyOf, k) :: keyOf(r) == k
    decreases |rows|
  {
    if rows != [] {
      SelectOnly(rows[..|rows| - 1], keyOf, k);
    }
  }

  // ----- splitting a batch -----

  datatype Group = Group(key: string, rows: seq<Row>)

  predicate DistinctKeys(gs: seq<Group>) { forall i, j | 0 <= i < j < |gs| :: gs[i].key != gs[j].key }

  predicate HasKey(gs: seq<Group>, k: string) { exists i | 0 <= i < |gs| :: gs[i].key == k }

  /** Each partition of the batch appears once, with its rows in order. */
  ghost predicate IsSplit(gs: seq<Group>, batch: seq<Row>, keyOf: Row -> string) {
    && DistinctKeys(gs)
    && (forall i | 0 <= i < |gs| :: gs[i].rows == Select(batch, keyOf, gs[i].key) && gs[i].rows != [])
    && (forall i | 0 <= i < |batch| :: HasKey(gs, keyOf(batch[i])))
  }

  method Split(batch: seq<Row>, keyOf: Row -> string) returns (gs: seq<Group>)
    ensures IsSplit(gs, batch, keyOf)
  {
    gs := [];
    for n := 0 to |batch|
      invariant IsSplit(gs, batch[..n], keyOf)
    {
      var k := keyOf(batch[n]);
      assert batch[..n + 1][..n] == batch[..n];
      var at := 0;
      while at < |gs| && gs[at].key != k
        invariant 0 <= at <= |gs|
        invariant forall i | 0 <= i < at :: gs[i].key != k
      {
        at := at + 1;
      }
      if at == |gs| {
        NewKey(gs, batch, keyOf, n);
        gs := gs + [Group(k, [batch[n]])];
      } else {
        OldKey(gs, batch, keyOf, n, at);
        gs := gs[at := gs[at].(rows := gs[at].rows + [batch[n]])];
      }
    }
    assert batch[..|batch|] == batch;
  }

  lemma NewKey(gs: seq<Group>, batch: seq<Row>, keyOf: Row -> string, n: nat)
    requires n < |batch| && IsSplit(gs, batch[..n], keyOf) && !HasKey(gs, keyOf(batch[n]))
    ensures IsSplit(gs + [Group(keyOf(batch[n]), [batch[n]])], batch[..n + 1], keyOf)
  {
    var k, few, more := keyOf(batch[n]), batch[..n], batch[..n + 1];
    var out := gs + [Group(k, [batch[n]])];
    assert more[..n] == few;
    forall i | 0 <= i < n
      ensures keyOf(few[i]) != k
    {
      assert HasKey(gs, keyOf(few[i]));
    }
    SelectNone(few, keyOf, k);
    forall i | 0 <= i < |gs|
      ensures out[i].key != k && out[i].rows == Select(more, keyOf, out[i].key)
    {
      assert HasKey(gs, gs[i].key);
    }
    forall i | 0 <= i < |more|
      ensures HasKey(out, keyOf(more[i]))
    {
      if i < n {
        assert more[i] == few[i];
        var j :| 0 <= j < |gs| && gs[j].key == keyOf(few[i]);
        assert out[j].key == keyOf(more[i]);
      } else {
        assert out[|gs|].key == keyOf(more[i]);
      }
    }
  }

  lemma OldKey(gs: seq<Group>, batch: seq<Row>, keyOf: Row -> string, n: nat, at: nat)
    requires n < |batch| && IsSplit(gs, batch[..n], keyOf) && at < |gs| && gs[at].key == keyOf(batch[n])
    ensures IsSplit(gs[at := gs[at].(rows := gs[at].rows + [batch[n]])], batch[..n + 1], keyOf)
  {
    var few, more := batch[..n], batch[..n + 1];
    var out := gs[at := gs[at].(rows := gs[at].rows + [batch[n]])];
    assert more[..n] == few;
    forall i | 0 <= i < |more|
      ensures HasKey(out, keyOf(more[i]))
    {
      if i < n {
        assert more[i] == few[i];
        var j :| 0 <= j < |gs| && gs[j].key == keyOf(few[i]);
        assert out[j].key == keyOf(more[i]);
      } else {
        assert out[at].key == keyOf(more[i]);
      }
    }
  }

  // ----- the least recently written order -----

  predicate Distinct(keys: seq<string>) { forall i, j | 0 <= i < j < |keys| :: keys[i] != keys[j] }

  /** `k` moved to the end. */
  function Touch(open: seq<string>, i: nat): seq<string>
    requires i < |open|
  {
    open[..i] + open[i + 1..] + [open[i]]
  }

  lemma TouchKeeps(open: seq<string>, i: nat)
    requires i < |open| && Distinct(open)
    ensures Distinct(Touch(open, i)) && |Touch(open, i)| == |open|
    ensures forall k :: k in Touch(open, i) <==> k in open
  {
    var t := Touch(open, i);
    forall k | k in open
      ensures k in t
    {
      var j :| 0 <= j < |open| && open[j] == k;
      if j < i {
        assert t[j] == k;
      } else if j > i {
        assert t[j - 1] == k;
      } else {
        assert t[|t| - 1] == k;
      }
    }
  }

  function Without(keys: seq<string>, k: string): seq<string> {
    if keys == [] then [] else (if keys[0] == k then [] else [keys[0]]) + Without(keys[1..], k)
  }

  lemma {:induction false} WithoutAbsent(keys: seq<string>, k: string)
    requires k !in keys
    ensures Without(keys, k) == keys
    decreases |keys|
  {
    if keys != [] {
      WithoutAbsent(keys[1..], k);
    }
  }

  lemma {:induction false} TouchIsWithout(open: seq<string>, i: nat)
    requires i < |open| && Distinct(open)
    ensures Touch(open, i) == Without(open, open[i]) + [open[i]]
    decreases |open|
  {
    var k := open[i];
    if i == 0 {
      WithoutAbsent(open[1..], k);
    } else {
      assert open[1..][i - 1] == k;
      TouchIsWithout(open[1..], i - 1);
      assert Touch(open, i) == [open[0]] + Touch(open[1..], i - 1);
    }
  }

  /** A slot is full and must give way: the new key has none open and the bound is reached. */
  predicate Evicts(open: seq<string>, k: string, maxOpen: int) { k !in open && open != [] && |open| >= maxOpen }

  /**
   The open list after a write to `k`: the others in their order, without the oldest if
   it must give way, and `k` last.
   */
  function Recent(open: seq<string>, k: string, maxOpen: int): seq<string> {
    (if Evicts(open, k, maxOpen) then open[1..] else Without(open, k)) + [k]
  }

  // ----- the state of the writer -----

  datatype Config = Config(target: int, maxOpen: int, keyOf: Row -> string, sizes: Sizes)

  /** Slots by partition key, keys in first-seen order, and keys with an open file, least recently written first. */
  datatype Output = Output(slots: map<string, Rolling>, order: seq<string>, open: seq<string>)

  predicate ListsOk(o: Output, maxOpen: int) {
    && Distinct(o.order)
    && (forall k | k in o.order :: k in o.slots)
    && (forall k | k in o.slots :: k in o.order)
    && Distinct(o.open)
    && |o.open| <= maxOpen
    && (forall k | k in o.open :: k in o.slots)
  }

  /** The slot's files and its open file hold exactly the rows of its partition, in order. */
  predicate SlotOk(s: Rolling, k: string, written: seq<Row>, c: Config) {
    RollingOk(s) && s.footer == k && s.target == c.target && Contents(s) == Select(written, c.keyOf, k)
  }

  /** Every row handed in so far is in its slot; exactly the listed slots are open (`busy` may be about to open). */
  ghost predicate OutputOk(o: Output, written: seq<Row>, c: Config, busy: Option<string>) {
    && ListsOk(o, c.maxOpen)
    && (forall k | k in o.slots ::
        SlotOk(o.slots[k], k, written, c) && (busy == Some(k) || (o.slots[k].isOpen <==> k in o.open)))
    && (forall i | 0 <= i < |written| :: c.keyOf(written[i]) in o.slots)
    && (busy.Some? ==> busy.value in o.slots && busy.value in o.open)
  }

  function OpenSlots(o: Output): set<string> { set k | k in o.slots && o.slots[k].isOpen }

  lemma {:induction false} SetOfKeys(keys: seq<string>, s: set<string>)
    requires forall k | k in s :: k in keys
    ensures |s| <= |keys|
    decreases |keys|
  {
    if keys != [] {
      var last, few := keys[|keys| - 1], keys[..|keys| - 1];
      assert forall k | k in s - {last} :: k in few;
      SetOfKeys(few, s - {last});
      assert s <= (s - {last}) + {last};
    }
  }

  /** At most maxOpen files are open, also while a slot is about to be written. */
  lemma OpenFilesAreBounded(o: Output, written: seq<Row>, c: Config, busy: Option<string>)
    requires OutputOk(o, written, c, busy)
    ensures |OpenSlots(o)| <= c.maxOpen
  {
    hide SlotOk;
    SetOfKeys(o.open, OpenSlots(o));
  }

  lemma AddSlotKeeps(o: Output, k: string, written: seq<Row>, c: Config)
    requires OutputOk(o, written, c, None) && k !in o.slots
    ensures OutputOk(Output(o.slots[k := NewRolling(c.target, k)], o.order + [k], o.open), written, c, None)
  {
    hide FilesOk, Distinct;
    SelectNone(written, c.keyOf, k);
    DistinctMore(o.order, k);
    NewIsOk(c.target, k);
  }

  lemma NewIsOk(target: int, k: string)
    ensures RollingOk(NewRolling(target, k)) && Contents(NewRolling(target, k)) == []
  {
  }

  lemma DistinctMore(keys: seq<string>, k: string)
    requires Distinct(keys) && k !in keys
    ensures Distinct(keys + [k])
  {
  }

  lemma TouchedKeeps(o: Output, i: nat, written: seq<Row>, c: Config)
    requires OutputOk(o, written, c, None) && i < |o.open|
    ensures OutputOk(o.(open := Touch(o.open, i)), written, c, Some(o.open[i]))
  {
    hide SlotOk, Touch, Distinct;
    TouchKeeps(o.open, i);
  }

  /** Finishing the least recently used file makes room in the list. */
  lemma FinishKeeps(o: Output, written: seq<Row>, c: Config)
    requires OutputOk(o, written, c, None) && o.open != []
    ensures o.open[0] in o.slots
    ensures OutputOk(o.(open := o.open[1..], slots := o.slots[o.open[0] := Closed(o.slots[o.open[0]], false)]),
        written, c, None)
  {
    hide RollingOk, Contents, Closed;
    var k := o.open[0];
    ClosedKeeps(o.slots[k], false);
    ClosedIsShut(o.slots[k]);
  }

  lemma EnlistKeeps(o: Output, k: string, written: seq<Row>, c: Config)
    requires OutputOk(o, written, c, None) && k in o.slots && k !in o.open && |o.open| < c.maxOpen
    ensures OutputOk(o.(open := o.open + [k]), written, c, Some(k))
  {
    hide SlotOk, Distinct;
    DistinctMore(o.open, k);
  }

  lemma AppendKeeps(o: Output, g: Group, written: seq<Row>, c: Config)
    requires OutputOk(o, written, c, Some(g.key)) && g.rows != [] && forall r | r in g.rows :: c.keyOf(r) == g.key
    ensures OutputOk(o.(slots := o.slots[g.key := Written(o.slots[g.key], g.rows, c.sizes)]), written + g.rows, c, None)
  {
    hide RollingOk, Contents, Written, Distinct;
    WrittenKeeps(o.slots[g.key], g.rows, c.sizes);
    forall k | k in o.slots
      ensures Select(written + g.rows, c.keyOf, k) == Select(written, c.keyOf, k) + if k == g.key then g.rows else []
    {
      SelectAppend(written, g.rows, c.keyOf, k);
      if k == g.key {
        SelectAll(g.rows, c.keyOf, k);
      } else {
        SelectNone(g.rows, c.keyOf, k);
      }
    }
  }

  lemma SameSelection(before: seq<Row>, gs: seq<Group>, batch: seq<Row>, keyOf: Row -> string, k: string)
    requires IsSplit(gs, batch, keyOf)
    ensures Select(before + batch, keyOf, k) == Select(before + Flat(gs), keyOf, k)
  {
    hide IsSplit, Select, Flat;
    SelectAppend(before, batch, keyOf, k);
    SelectAppend(before, Flat(gs), keyOf, k);
    FlatSelects(gs, batch, keyOf, k);
  }

  /** Every row of the batch has its key among the rows of the groups. */
  lemma KeyOccurs(gs: seq<Group>, batch: seq<Row>, keyOf: Row -> string, i: nat) returns (j: nat)
    requires IsSplit(gs, batch, keyOf) && i < |batch|
    ensures j < |Flat(gs)| && keyOf(Flat(gs)[j]) == keyOf(batch[i])
  {
    hide IsSplit, Select, Flat;
    SelectHas(batch, keyOf, i);
    FlatSelects(gs, batch, keyOf, keyOf(batch[i]));
    j := SelectIndex(Flat(gs), keyOf, keyOf(batch[i]));
  }

  /** The groups of a batch hold the same rows of every partition as the batch. */
  lemma RegroupKeeps(o: Output, before: seq<Row>, gs: seq<Group>, batch: seq<Row>, c: Config)
    requires OutputOk(o, before + Flat(gs), c, None) && IsSplit(gs, batch, c.keyOf)
    ensures OutputOk(o, before + batch, c, None)
  {
    hide RollingOk, Contents, ListsOk, IsSplit, Select, Flat;
    forall k
      ensures Select(before + batch, c.keyOf, k) == Select(before + Flat(gs), c.keyOf, k)
    {
      SameSelection(before, gs, batch, c.keyOf, k);
    }
    forall i | 0 <= i < |before + batch|
      ensures c.keyOf((before + batch)[i]) in o.slots
    {
      if i < |before| {
        assert (before + Flat(gs))[i] == before[i];
      } else {
        var j := KeyOccurs(gs, batch, c.keyOf, i - |before|);
        assert (before + Flat(gs))[|before| + j] == Flat(gs)[j];
      }
    }
  }

  class PartitionedWriter {
    const c: Config
    var slots: map<string, Rolling>
    var order: seq<string>
    var open: seq<string>
    /** Every row handed to Write so far. */
    ghost var written: seq<Row>

    constructor (target: int, limit: int, key: Row -> string, z: Sizes)
      ensures Valid() && slots == map[] && written == []
      ensures c == Config(target, if limit < 1 then 1 else limit, key, z)
    {
      c := Config(target, if limit < 1 then 1 else limit, key, z);
      slots, order, open, written := map[], [], [], [];
    }

    function Out(): Output
      reads this
    {
      Output(slots, order, open)
    }

    ghost predicate Valid()
      reads this
    {
      c.maxOpen >= 1 && OutputOk(Out(), written, c, None)
    }

    /** Marks the slot most recently used; when the bound is reached the least recently used file is finished. */
    method SlotFor(k: string)
      requires Valid()
      modifies this`slots, this`order, this`open
      ensures OutputOk(Out(), written, c, Some(k)) && old(order) <= order
      ensures open == Recent(old(open), k, c.maxOpen)
      ensures forall j | j in old(slots) ::
                j in slots && slots[j] == if Evicts(old(open), k, c.maxOpen) && j == old(open)[0]
                    then Closed(old(slots)[j], false) else old(slots)[j]
    {
      hide OutputOk, Closed, Without, Touch;
      OpenFits(Out(), written, c);
      if k !in slots {
        AddSlotKeeps(Out(), k, written, c);
        slots := slots[k := NewRolling(c.target, k)];
        order := order + [k];
      }
      var i := 0;
      while i < |open|
        invariant 0 <= i <= |open| && forall j | 0 <= j < i :: open[j] != k
      {
        if open[i] == k {
          TouchedKeeps(Out(), i, written, c);
          OpenIsDistinct(Out(), written, c);
          TouchIsWithout(open, i);
          open := Touch(open, i);
          return;
        }
        i := i + 1;
      }
      OpenFits(Out(), written, c);
      WithoutAbsent(open, k);
      if |open| >= c.maxOpen {
        FinishKeeps(Out(), written, c);
        var lru := open[0];
        slots := slots[lru := Closed(slots[lru], false)];
        open := open[1..];
      }
      EnlistKeeps(Out(), k, written, c);
      open := open + [k];
    }

    /** A batch goes to the files of its partitions, group by group. */
    method Write(batch: seq<Row>)
      requires Valid()
      modifies this
      ensures Valid()
      ensures written == old(written) + batch && old(order) <= order
    {
      hide OutputOk, IsSplit, Written;
      ghost var before := written;
      var gs := Split(batch, c.keyOf);
      assert Flat(gs[..0]) == [];
      for i := 0 to |gs|
        invariant Valid()
        invariant written == before + Flat(gs[..i]) && old(order) <= order
      {
        GroupIsPure(gs, batch, c.keyOf, i);
        assert gs[..i + 1][..i] == gs[..i];
        SlotFor(gs[i].key);
        AppendKeeps(Out(), gs[i], written, c);
        BusyExists(Out(), gs[i].key, written, c);
        slots := slots[gs[i].key := Written(slots[gs[i].key], gs[i].rows, c.sizes)];
        written := written + gs[i].rows;
      }
      assert gs[..|gs|] == gs;
      RegroupKeeps(Out(), before, gs, batch, c);
      written := before + batch;
    }

    /** After closing, the files of each partition concatenate to exactly its rows. */
    method Close()
      requires Valid()
      modifies this`open, this`slots
      ensures Valid() && open == [] && slots.Keys == old(slots.Keys)
      ensures forall k | k in slots :: !slots[k].isOpen && Rows(slots[k].files) == Select(written, c.keyOf, k)
    {
      hide OutputOk, Closed, OutputWithin, Rows, Select;
      OrderExists(Out(), written, c);
      for i := 0 to |order|
        invariant slots.Keys == old(slots.Keys) && OutputWithin(Out(), i, written, c)
      {
        CloseOneKeeps(Out(), i, written, c);
        slots := slots[order[i] := Closed(slots[order[i]], false)];
      }
      AllShut(Out(), written, c);
      open := [];
    }

    /** All files, partition by partition in first-seen order; none mixes partitions. */
    method Files() returns (out: seq<File>)
      requires Valid()
      ensures forall i, r | 0 <= i < |out| && r in out[i].rows :: c.keyOf(r) == out[i].footer
      ensures forall i | 0 <= i < |out| && out[i].rolled :: out[i].encodedBytes >= NearTarget(Target(c.target))
      ensures forall k :: OfPartition(out, k) == if k in slots then slots[k].files else []
    {
      hide OutputOk;
      out := [];
      for n := 0 to |order|
        invariant FilesSoFar(out, Out(), n, c)
      {
        AddFiles(out, Out(), n, written, c);
        out := out + slots[order[n]].files;
      }
      AllFiles(out, Out(), written, c);
    }
  }

  lemma OpenIsDistinct(o: Output, written: seq<Row>, c: Config)
    requires OutputOk(o, written, c, None)
    ensures Distinct(o.open)
  {
  }

  lemma OpenFits(o: Output, written: seq<Row>, c: Config)
    requires OutputOk(o, written, c, None)
    ensures |o.open| <= c.maxOpen
  {
  }

  lemma BusyExists(o: Output, k: string, written: seq<Row>, c: Config)
    requires OutputOk(o, written, c, Some(k))
    ensures k in o.slots
  {
  }

  lemma GroupIsPure(gs: seq<Group>, batch: seq<Row>, keyOf: Row -> string, i: nat)
    requires IsSplit(gs, batch, keyOf) && i < |gs|
    ensures gs[i].rows != [] && forall r | r in gs[i].rows :: keyOf(r) == gs[i].key
  {
    SelectOnly(batch, keyOf, gs[i].key);
  }

  // ----- closing -----

  /** The first `n` slots of the order are shut. */
  ghost predicate OutputWithin(o: Output, n: nat, written: seq<Row>, c: Config) {
    && n <= |o.order|
    && ListsOk(o, c.maxOpen)
    && (forall k | k in o.slots :: SlotOk(o.slots[k], k, written, c))
    && (forall i | 0 <= i < |written| :: c.keyOf(written[i]) in o.slots)
    && (forall i | 0 <= i < n :: !o.slots[o.order[i]].isOpen)
  }

  lemma OrderExists(o: Output, written: seq<Row>, c: Config)
    requires OutputOk(o, written, c, None)
    ensures OutputWithin(o, 0, written, c)
  {
    hide SlotOk, Distinct;
  }

  lemma CloseOneKeeps(o: Output, i: nat, written: seq<Row>, c: Config)
    requires i < |o.order| && OutputWithin(o, i, written, c)
    ensures o.order[i] in o.slots
    ensures OutputWithin(o.(slots := o.slots[o.order[i] := Closed(o.slots[o.order[i]], false)]), i + 1, written, c)
  {
    hide RollingOk, Contents, Closed;
    ClosedKeeps(o.slots[o.order[i]], false);
    ClosedIsShut(o.slots[o.order[i]]);
  }

  lemma AllShut(o: Output, written: seq<Row>, c: Config)
    requires OutputWithin(o, |o.order|, written, c) && c.maxOpen >= 1
    ensures OutputOk(o.(open := []), written, c, None)
    ensures forall k | k in o.slots :: !o.slots[k].isOpen && Rows(o.slots[k].files) == Select(written, c.keyOf, k)
  {
    hide RollingOk, Contents;
    forall k | k in o.slots
      ensures !o.slots[k].isOpen && Rows(o.slots[k].files) == Contents(o.slots[k])
    {
      var i :| 0 <= i < |o.order| && o.order[i] == k;
      ShutContents(o.slots[k]);
    }
  }

  // ----- listing -----

  ghost predicate FilesSoFar(out: seq<File>, o: Output, n: nat, c: Config) {
    && n <= |o.order|
    && (forall i, r | 0 <= i < |out| && r in out[i].rows :: c.keyOf(r) == out[i].footer)
    && (forall i | 0 <= i < |out| && out[i].rolled :: out[i].encodedBytes >= NearTarget(Target(c.target)))
    && (forall i | 0 <= i < n :: o.order[i] in o.slots && OfPartition(out, o.order[i]) == o.slots[o.order[i]].files)
    && (forall k | k !in o.order[..n] :: OfPartition(out, k) == [])
  }

  lemma AddFiles(out: seq<File>, o: Output, n: nat, written: seq<Row>, c: Config)
    requires OutputOk(o, written, c, None) && n < |o.order| && FilesSoFar(out, o, n, c)
    ensures o.order[n] in o.slots
    ensures FilesSoFar(out + o.slots[o.order[n]].files, o, n + 1, c)
  {
    hide RollingOk, Contents, NearTarget, Target, OfPartition, Select;
    var slot, key := o.slots[o.order[n]], o.order[n];
    assert SlotOk(slot, key, written, c);
    FilesOfSlot(slot, written, c.keyOf);
    var more := out + slot.files;
    forall k
      ensures OfPartition(more, k) == OfPartition(out, k) + if k == key then slot.files else []
    {
      OfPartitionAppend(out, slot.files, k);
      OfOnePartition(slot.files, key, k);
    }
    assert key !in o.order[..n];
    assert o.order[..n + 1] == o.order[..n] + [key];
  }

  lemma AllFiles(out: seq<File>, o: Output, written: seq<Row>, c: Config)
    requires OutputOk(o, written, c, None) && FilesSoFar(out, o, |o.order|, c)
    ensures forall k :: OfPartition(out, k) == if k in o.slots then o.slots[k].files else []
  {
    hide SlotOk;
    forall k
      ensures OfPartition(out, k) == if k in o.slots then o.slots[k].files else []
    {
      if k in o.slots {
        var i :| 0 <= i < |o.order| && o.order[i] == k;
      }
    }
  }

  // ----- a whole task -----

  lemma TargetIsInt64(configured: int)
    requires configured < TWO_63
    ensures Target(configured) < TWO_63
  {
  }

  lemma UnseenIsEmpty(o: Output, written: seq<Row>, c: Config, k: string)
    requires OutputOk(o, written, c, None) && k !in o.slots
    ensures Select(written, c.keyOf, k) == []
  {
    SelectNone(written, c.keyOf, k);
  }

  /**
   Whatever the bound on open files, the output is that of an unbounded writer:
   each partition's files concatenate to exactly its rows in input order, no
   file mixes partitions, and every file closed by rolling has reached 80% of
   the target.
   */
  method WriteTask(target: int, limit: int, keyOf: Row -> string, z: Sizes, batches: seq<seq<Row>>)
      returns (files: seq<File>)
    ensures forall k :: Rows(OfPartition(files, k)) == Select(Join(batches), keyOf, k)
    ensures forall i, r | 0 <= i < |files| && r in files[i].rows :: keyOf(r) == files[i].footer
    ensures target < TWO_63 ==>
              forall i | 0 <= i < |files| && files[i].rolled :: 100 * files[i].encodedBytes >= 80 * Target(target)
  {
    hide OutputOk, NearTarget, Target, OfPartition;
    var w := new PartitionedWriter(target, limit, keyOf, z);
    for i := 0 to |batches|
      invariant w.Valid() && w.written == Join(batches[..i]) && fresh(w)
    {
      assert batches[..i + 1][..i] == batches[..i];
      w.Write(batches[i]);
    }
    assert batches[..|batches|] == batches;
    w.Close();
    files := w.Files();
    forall k
      ensures Rows(OfPartition(files, k)) == Select(w.written, keyOf, k)
    {
      if k !in w.slots {
        UnseenIsEmpty(w.Out(), w.written, w.c, k);
      }
    }
    if target < TWO_63 {
      TargetIsInt64(target);
      EightyPercent(Target(target));
    }
  }

  function OfPartition(files: seq<File>, k: string): seq<File> {
    if files == [] then []
    else
      var last := files[|files| - 1];
      OfPartition(files[..|files| - 1], k) + if last.footer == k then [last] else []
  }

  lemma {:induction false} OfPartitionAppend(a: seq<File>, b: seq<File>, k: string)
    ensures OfPartition(a + b, k) == OfPartition(a, k) + OfPartition(b, k)
    decreases |b|
  {
    if b == [] {
      assert a + b == a;
    } else {
      var few := b[..|b| - 1];
      assert (a + b)[..|a + b| - 1] == a + few;
      OfPartitionAppend(a, few, k);
    }
  }

  lemma {:induction false} OfOnePartition(files: seq<File>, key: string, k: string)
    requires forall i | 0 <= i < |files| :: files[i].footer == key
    ensures OfPartition(files, k) == if k == key then files else []
    decreases |files|
  {
    if files != [] {
      OfOnePartition(files[..|files| - 1], key, k);
    }
  }

  lemma ClosedIsShut(s: Rolling)
    ensures !Closed(s, false).isOpen
    ensures Closed(s, false).footer == s.footer && Closed(s, false).target == s.target
  {
  }

  lemma ShutContents(s: Rolling)
    requires RollingOk(s) && !s.isOpen
    ensures Rows(s.files) == Contents(s)
  {
  }

  lemma {:induction false} FileRowsIn(files: seq<File>, i: nat, r: Row)
    requires i < |files| && r in files[i].rows
    ensures r in Rows(files)
    decreases |files|
  {
    if i < |files| - 1 {
      FileRowsIn(files[..|files| - 1], i, r);
    }
  }

  /** The finished files of a slot carry its key and hold only rows of its partition. */
  lemma FilesOfSlot(s: Rolling, rows: seq<Row>, keyOf: Row -> string)
    requires RollingOk(s) && Contents(s) == Select(rows, keyOf, s.footer)
    ensures forall i | 0 <= i < |s.files| :: s.files[i].footer == s.footer
    ensures forall i, r | 0 <= i < |s.files| && r in s.files[i].rows :: keyOf(r) == s.footer
    ensures forall i | 0 <= i < |s.files| && s.files[i].rolled ::
        s.files[i].encodedBytes >= NearTarget(Target(s.target))
  {
    hide NearTarget, Target;
    SelectOnly(rows, keyOf, s.footer);
    forall i, r | 0 <= i < |s.files| && r in s.files[i].rows
      ensures r in Contents(s)
    {
      FileRowsIn(s.files, i, r);
    }
  }

  function Flat(gs: seq<Group>): seq<Row> {
    if gs == [] then [] else Flat(gs[..|gs| - 1]) + gs[|gs| - 1].rows
  }

  lemma {:induction false} SelectAll(rows: seq<Row>, keyOf: Row -> string, k: string)
    requires forall r | r in rows :: keyOf(r) == k
    ensures Select(rows, keyOf, k) == rows
    decreases |rows|
  {
    if rows != [] {
      SelectAll(rows[..|rows| - 1], keyOf, k);
    }
  }

  lemma {:induction false} SelectHas(rows: seq<Row>, keyOf: Row -> string, i: nat)
    requires i < |rows|
    ensures Select(rows, keyOf, keyOf(rows[i])) != []
    decreases |rows|
  {
    if i < |rows| - 1 {
      SelectHas(rows[..|rows| - 1], keyOf, i);
    }
  }

  lemma {:induction false} SelectIndex(rows: seq<Row>, keyOf: Row -> string, k: string) returns (i: nat)
    requires Select(rows, keyOf, k) != []
    ensures i < |rows| && keyOf(rows[i]) == k
    decreases |rows|
  {
    if keyOf(rows[|rows| - 1]) == k {
      i := |rows| - 1;
    } else {
      i := SelectIndex(rows[..|rows| - 1], keyOf, k);
    }
  }

  /** What the first groups hold of partition `k`: its group, if it is among them. */
  lemma {:induction false} FlatOfKey(gs: seq<Group>, n: nat, keyOf: Row -> string, k: string, at: nat)
    requires n <= |gs| && DistinctKeys(gs) && at < |gs| && gs[at].key == k
    requires forall i, r | 0 <= i < |gs| && r in gs[i].rows :: keyOf(r) == gs[i].key
    ensures Select(Flat(gs[..n]), keyOf, k) == if at < n then gs[at].rows else []
    decreases n
  {
    hide Select, Flat;
    if n == 0 {
      NothingFlat(keyOf, k);
    } else {
      FlatOfKey(gs, n - 1, keyOf, k, at);
      FlatMore(gs, n - 1);
      SelectAppend(Flat(gs[..n - 1]), gs[n - 1].rows, keyOf, k);
      if at == n - 1 {
        SelectAll(gs[n - 1].rows, keyOf, k);
      } else {
        SelectNone(gs[n - 1].rows, keyOf, k);
      }
    }
  }

  lemma NothingFlat(keyOf: Row -> string, k: string)
    ensures Select(Flat([]), keyOf, k) == []
  {
  }

  lemma FlatMore(gs: seq<Group>, n: nat)
    requires n < |gs|
    ensures Flat(gs[..n + 1]) == Flat(gs[..n]) + gs[n].rows
  {
    assert gs[..n + 1][..n] == gs[..n];
  }

  lemma {:induction false} FlatWithout(gs: seq<Group>, n: nat, keyOf: Row -> string, k: string)
    requires n <= |gs| && !HasKey(gs, k)
    requires forall i, r | 0 <= i < |gs| && r in gs[i].rows :: keyOf(r) == gs[i].key
    ensures Select(Flat(gs[..n]), keyOf, k) == []
    decreases n
  {
    hide Select, Flat;
    if n == 0 {
      NothingFlat(keyOf, k);
    } else {
      FlatWithout(gs, n - 1, keyOf, k);
      FlatMore(gs, n - 1);
      SelectAppend(Flat(gs[..n - 1]), gs[n - 1].rows, keyOf, k);
      assert HasKey(gs, gs[n - 1].key);
      SelectNone(gs[n - 1].rows, keyOf, k);
    }
  }

  lemma FlatSelects(gs: seq<Group>, batch: seq<Row>, keyOf: Row -> string, k: string)
    requires IsSplit(gs, batch, keyOf)
    ensures Select(Flat(gs), keyOf, k) == Select(batch, keyOf, k)
  {
    forall i, r | 0 <= i < |gs| && r in gs[i].rows
      ensures keyOf(r) == gs[i].key
    {
      SelectOnly(batch, keyOf, gs[i].key);
    }
    assert gs[..|gs|] == gs;
    if HasKey(gs, k) {
      var at :| 0 <= at < |gs| && gs[at].key == k;
      FlatOfKey(gs, |gs|, keyOf, k, at);
    } else {
      FlatWithout(gs, |gs|, keyOf, k);
      forall i | 0 <= i < |batch|
        ensures keyOf(batch[i]) != k
      {
        assert HasKey(gs, keyOf(batch[i]));
      }
      SelectNone(batch, keyOf, k);
    }
  }
}
