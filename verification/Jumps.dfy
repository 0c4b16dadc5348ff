/** The index of call arcs of the current thread (callgrind/jumps.c): a hash table of linked chains with a
    last-used record per block, which is a map from (from, jmp, to) to records. */
module Jumps {
  import opened Words

  const INITIAL_SIZE: nat := 4437

  datatype Key = Key(from: Bbcc, jmp: nat, to: Bbcc)

  /** A block in a context, at an address in memory. */
  class Bbcc {
    const addr: nat
    var lruFrom: Jcc?
    var lruTo: Jcc?

    constructor (addr: nat)
      ensures this.addr == addr && lruFrom == null && lruTo == null
    {
      this.addr := addr;
      lruFrom, lruTo := null, null;
    }
  }

  /** The record of one arc, in a chain of the hash table. */
  class Jcc {
    const key: Key
    var next: Jcc?

    constructor (key: Key)
      ensures this.key == key && next == null
    {
      this.key := key;
      next := null;
    }
  }

  /** jcc_hash_idx, where the sum is cut to 32 bits before the remainder is taken. */
  function HashIdx(key: Key, size: nat): (idx: nat)
    requires size > 0
    ensures idx < size
  {
    Rem((key.from.addr + 7 * key.to.addr + (13 * key.jmp) % UINT) % UINT, size)
  }

  /** While the sum does not overflow: callers, callees and jumps count once, seven times and thirteen times. */
  lemma HashWithoutWrap(key: Key, size: nat)
    requires size > 0 && key.from.addr + 7 * key.to.addr + 13 * key.jmp < UINT
    ensures HashIdx(key, size) == (key.from.addr + 7 * key.to.addr + 13 * key.jmp) % size
  {
  }

  // ----- chains

  /** The list that starts at head is s. */
  ghost predicate Linked(head: Jcc?, s: seq<Jcc>)
    reads s
  {
    if s == [] then head == null else head == s[0] && Linked(s[0].next, s[1..])
  }

  ghost function Members(chain: seq<Jcc>): set<Jcc> {
    set j | j in chain
  }

  ghost predicate NoRepeats(chain: seq<Jcc>) {
    forall k, l :: 0 <= k < l < |chain| ==> chain[k] != chain[l]
  }

  /** The chains hold exactly the records in nodes, each once and where its key hashes to. */
  ghost predicate Indexed(chains: seq<seq<Jcc>>, nodes: set<Jcc>) {
    && |chains| > 0
    && (forall i, j :: 0 <= i < |chains| && j in chains[i] ==> j in nodes && HashIdx(j.key, |chains|) == i)
    && (forall i :: 0 <= i < |chains| ==> NoRepeats(chains[i]))
    && (forall j :: j in nodes ==> j in chains[HashIdx(j.key, |chains|)])
  }

  lemma InsertIndexed(chains: seq<seq<Jcc>>, nodes: set<Jcc>, j: Jcc)
    requires Indexed(chains, nodes) && j !in nodes
    ensures var idx := HashIdx(j.key, |chains|); Indexed(chains[idx := [j] + chains[idx]], nodes + {j})
  {
    var idx := HashIdx(j.key, |chains|);
    assert j !in chains[idx];
  }

  lemma ChainsAreApart(chains: seq<seq<Jcc>>, nodes: set<Jcc>, i: nat)
    requires Indexed(chains, nodes) && i < |chains|
    ensures forall k :: 0 <= k < |chains| && k != i ==> Members(chains[i]) !! Members(chains[k])
    ensures NoRepeats(chains[i]) && Members(chains[i]) <= nodes
  {
    forall k | 0 <= k < |chains| && k != i
      ensures Members(chains[i]) !! Members(chains[k])
    {
      forall j | j in chains[i]
        ensures j !in chains[k]
      {
        assert HashIdx(j.key, |chains|) == i;
      }
    }
  }

  ghost predicate Chained(table: array<Jcc?>, chains: seq<seq<Jcc>>, nodes: set<Jcc>)
    reads table, nodes
  {
    && table.Length == |chains| && Indexed(chains, nodes)
    && forall i :: 0 <= i < |chains| ==> Linked(table[i], chains[i])
  }

  /** Puts a record at the head of its chain. */
  method Insert(table: array<Jcc?>, j: Jcc, ghost chains: seq<seq<Jcc>>, ghost nodes: set<Jcc>)
      returns (ghost chains': seq<seq<Jcc>>)
    requires Chained(table, chains, nodes) && j !in nodes
    modifies table, j`next
    ensures |chains'| == |chains| && Chained(table, chains', nodes + {j})
  {
    var idx := HashIdx(j.key, table.Length);
    InsertIndexed(chains, nodes, j);
    j.next := table[idx];
    table[idx] := j;
    chains' := chains[idx := [j] + chains[idx]];
    assert chains'[idx][1..] == chains[idx];
  }

  method AddNew(table: array<Jcc?>, key: Key, ghost chains: seq<seq<Jcc>>, ghost nodes: set<Jcc>)
      returns (j: Jcc, ghost chains': seq<seq<Jcc>>)
    requires Chained(table, chains, nodes)
    modifies table
    ensures fresh(j) && j.key == key && j !in nodes
    ensures |chains'| == |chains| && Chained(table, chains', nodes + {j})
  {
    j := new Jcc(key);
    chains' := Insert(table, j, chains, nodes);
  }

  /** Walks a chain for a record with the key. */
  method Search(head: Jcc?, key: Key, ghost chain: seq<Jcc>) returns (j: Jcc?)
    requires Linked(head, chain)
    ensures j == null ==> forall k :: 0 <= k < |chain| ==> chain[k].key != key
    ensures j != null ==> j in chain && j.key == key
  {
    j := head;
    ghost var rest := chain;
    while j != null
      invariant Linked(j, rest) && |rest| <= |chain| && rest == chain[|chain| - |rest|..]
      invariant forall k :: 0 <= k < |chain| - |rest| ==> chain[k].key != key
      decreases |rest|
    {
      if j.key == key {
        return;
      }
      j := j.next;
      rest := rest[1..];
    }
  }

  /** Moves the first record of what is left of a chain into the new table. */
  method MoveFirst(curr: Jcc, table: array<Jcc?>, ghost rest: seq<Jcc>, ghost chains: seq<seq<Jcc>>, ghost nodes: set<Jcc>)
      returns (next: Jcc?, ghost chains': seq<seq<Jcc>>)
    requires Linked(curr, rest) && Chained(table, chains, nodes)
    requires Members(rest) !! nodes && NoRepeats(rest)
    modifies table, curr`next
    ensures rest != [] && rest[0] == curr && Linked(next, rest[1..])
    ensures |chains'| == |chains| && Chained(table, chains', nodes + {curr})
    ensures Members(rest[1..]) !! nodes + {curr}
  {
    next := curr.next;
    assert rest == [rest[0]] + rest[1..];
    chains' := Insert(table, curr, chains, nodes);
  }

  /** Moves the records of one chain of the old table, first to last, into the new one. */
  method MoveChain(head: Jcc?, table: array<Jcc?>, ghost chain: seq<Jcc>, ghost chains: seq<seq<Jcc>>, ghost nodes: set<Jcc>)
      returns (ghost chains': seq<seq<Jcc>>)
    requires Linked(head, chain) && Chained(table, chains, nodes)
    requires Members(chain) !! nodes && NoRepeats(chain)
    modifies table, Members(chain)
    ensures |chains'| == |chains| && Chained(table, chains', nodes + Members(chain))
  {
    hide Chained;
    var curr := head;
    chains' := chains;
    ghost var rest, moved := chain, nodes;
    while curr != null
      invariant Linked(curr, rest) && NoRepeats(rest) && Members(rest) !! moved
      invariant moved + Members(rest) == nodes + Members(chain) && Members(rest) <= Members(chain)
      invariant |chains'| == |chains| && Chained(table, chains', moved)
      decreases |rest|
    {
      assert curr in Members(rest);
      assert rest == [curr] + rest[1..];
      curr, chains' := MoveFirst(curr, table, rest, chains', moved);
      moved, rest := moved + {rest[0]}, rest[1..];
    }
    assert rest == [];
    assert moved == nodes + Members(chain);
  }

  /** From bucket i on, the old table is as it was, and none of its records has moved. */
  ghost predicate Waiting(table: array<Jcc?>, chains: seq<seq<Jcc>>, nodes: set<Jcc>, moved: set<Jcc>, i: nat)
    reads table, nodes
  {
    && table.Length == |chains| && Indexed(chains, nodes)
    && forall k :: i <= k < |chains| ==> Linked(table[k], chains[k]) && Members(chains[k]) !! moved
  }

  method MoveBucket(table: array<Jcc?>, i: nat, newTable: array<Jcc?>, ghost chains: seq<seq<Jcc>>, ghost nodes: set<Jcc>,
      ghost newChains: seq<seq<Jcc>>, ghost moved: set<Jcc>) returns (ghost newChains': seq<seq<Jcc>>)
    requires table != newTable && i < table.Length
    requires Waiting(table, chains, nodes, moved, i) && Chained(newTable, newChains, moved)
    modifies newTable, nodes
    ensures Waiting(table, chains, nodes, moved + Members(chains[i]), i + 1)
    ensures |newChains'| == |newChains| && Chained(newTable, newChains', moved + Members(chains[i]))
  {
    ChainsAreApart(chains, nodes, i);
    newChains' := MoveChain(table[i], newTable, chains[i], newChains, moved);
  }

  lemma AllMoved(chains: seq<seq<Jcc>>, nodes: set<Jcc>, moved: set<Jcc>)
    requires Indexed(chains, nodes) && moved <= nodes
    requires forall k :: 0 <= k < |chains| ==> Members(chains[k]) <= moved
    ensures moved == nodes
  {
    forall j | j in nodes
      ensures j in moved
    {
      assert j in Members(chains[HashIdx(j.key, |chains|)]);
    }
  }

  /** Moves every record of one table into another that is empty. */
  method Rehash(table: array<Jcc?>, newTable: array<Jcc?>, ghost chains: seq<seq<Jcc>>, ghost nodes: set<Jcc>)
      returns (ghost newChains: seq<seq<Jcc>>)
    requires table != newTable && Chained(table, chains, nodes)
    requires newTable.Length > 0 && forall i :: 0 <= i < newTable.Length ==> newTable[i] == null
    modifies newTable, nodes
    ensures |newChains| == newTable.Length && Chained(newTable, newChains, nodes)
  {
    newChains := seq(newTable.Length, _ => []);
    ghost var moved: set<Jcc> := {};
    for i := 0 to table.Length
      invariant |newChains| == newTable.Length && Chained(newTable, newChains, moved)
      invariant Waiting(table, chains, nodes, moved, i)
      invariant moved <= nodes && forall k :: 0 <= k < i ==> Members(chains[k]) <= moved
    {
      ChainsAreApart(chains, nodes, i);
      newChains := MoveBucket(table, i, newTable, chains, nodes, newChains, moved);
      moved := moved + Members(chains[i]);
    }
    AllMoved(chains, nodes, moved);
  }

  /** The test before a record is added. It divides first, so it lets a table fill to just under 90
      per cent of its size. */
  predicate TooFull(entries: nat, size: nat)
    requires size > 0
    ensures TooFull(entries, size) <==> 10 * entries >= 9 * size
  {
    10 * entries / size > 8
  }

  ghost predicate Has(nodes: set<Jcc>, key: Key) {
    exists j :: j in nodes && j.key == key
  }

  ghost predicate DistinctKeys(nodes: set<Jcc>) {
    forall i, j :: i in nodes && j in nodes && i.key == j.key ==> i == j
  }

  /** What get_jcc does to the records: the one for the key is found, or added if there was none. */
  ghost predicate Answers(before: set<Jcc>, key: Key, j: Jcc, after: set<Jcc>) {
    j.key == key && if Has(before, key) then j in before && after == before else j !in before && after == before + {j}
  }

  /** The requests of a run, the records they got, and the records there were before and after each. */
  ghost predicate Served(states: seq<set<Jcc>>, keys: seq<Key>, js: seq<Jcc>) {
    && |states| == |keys| + 1 && |js| == |keys| && DistinctKeys(states[0])
    && forall i :: 0 <= i < |keys| ==> Answers(states[i], keys[i], js[i], states[i + 1])
  }

  /** One more request keeps a run served. */
  lemma ServedMore(states: seq<set<Jcc>>, keys: seq<Key>, js: seq<Jcc>, key: Key, j: Jcc, after: set<Jcc>)
    requires Served(states, keys, js) && Answers(states[|keys|], key, j, after)
    ensures Served(states + [after], keys + [key], js + [j])
  {
  }

  lemma AnswersAdds(before: set<Jcc>, key: Key, j: Jcc, after: set<Jcc>)
    requires Answers(before, key, j, after)
    ensures j in after && (Has(before, key) ==> after == before) && (!Has(before, key) ==> after == before + {j})
  {
  }

  lemma {:induction false} RecordsStay(states: seq<set<Jcc>>, keys: seq<Key>, js: seq<Jcc>, i: nat, k: nat)
    requires Served(states, keys, js) && i <= k <= |keys|
    ensures states[i] <= states[k] && DistinctKeys(states[k])
    decreases k
  {
    if k > 0 {
      RecordsStay(states, keys, js, if i < k then i else k - 1, k - 1);
      assert Answers(states[k - 1], keys[k - 1], js[k - 1], states[k - 1 + 1]);
    }
  }

  /** Over any run, two requests get the same record exactly when they are for the same arc. */
  lemma SameRecordIffSameKey(states: seq<set<Jcc>>, keys: seq<Key>, js: seq<Jcc>, i: nat, k: nat)
    requires Served(states, keys, js) && i < k < |keys|
    ensures js[i] == js[k] <==> keys[i] == keys[k]
  {
    RecordsStay(states, keys, js, i + 1, k);
    assert Answers(states[i], keys[i], js[i], states[i + 1]);
    assert Answers(states[k], keys[k], js[k], states[k + 1]);
  }

  lemma AddDistinct(nodes: set<Jcc>, j: Jcc)
    requires DistinctKeys(nodes) && !Has(nodes, j.key)
    ensures DistinctKeys(nodes + {j}) && |nodes + {j}| == |nodes| + 1
  {
  }

  /** The table of the current thread. */
  class JccTable {
    var table: array<Jcc?>
    var entries: nat
    ghost var chains: seq<seq<Jcc>>
    ghost var nodes: set<Jcc>     // the records: as no two have the same key, a map from keys
    ghost var blocks: set<Bbcc>   // the blocks whose last-used records are in this table

    /** The records are in the chains, and the chains stay short. */
    ghost predicate Holds()
      reads this, table, nodes
    {
      && Chained(table, chains, nodes) && DistinctKeys(nodes)
      && entries == |nodes| && !TooFull(entries, table.Length)
    }

    /** The last-used records of a block are records of that block in this table. */
    ghost predicate Remembers(b: Bbcc)
      reads this, b
    {
      && (b.lruFrom != null ==> b.lruFrom in nodes && b.lruFrom.key.from == b)
      && (b.lruTo != null ==> b.lruTo in nodes && b.lruTo.key.to == b)
    }

    ghost predicate Fine()
      reads this, table, nodes, blocks
    {
      Holds() && forall b :: b in blocks ==> Remembers(b)
    }

    constructor ()
      ensures Fine() && nodes == {} && blocks == {} && fresh(table)
    {
      table := new Jcc?[INITIAL_SIZE](_ => null);
      entries := 0;
      chains := seq(INITIAL_SIZE, _ => []);
      nodes := {};
      blocks := {};
    }

    /** A block seen for the first time has no last-used records. */
    method AddBlock(addr: nat) returns (b: Bbcc)
      requires Fine()
      modifies this`blocks
      ensures Fine() && fresh(b) && b.addr == addr && blocks == old(blocks) + {b}
    {
      b := new Bbcc(addr);
      blocks := blocks + {b};
    }

    /** resize_jcc_table: every record moves to a table twice as large. */
    method Resize()
      requires Chained(table, chains, nodes)
      modifies this`table, this`chains, nodes
      ensures Chained(table, chains, nodes) && fresh(table)
      ensures table.Length == 2 * old(table.Length) + 3
    {
      var newSize := 2 * table.Length + 3;
      var newTable := new Jcc?[newSize](_ => null);
      chains := Rehash(table, newTable, chains, nodes);
      table := newTable;
    }

    /** Counts a record to come, and resizes the table if it is too full for it. */
    method MakeRoom()
      requires Holds()
      modifies this`entries, this`table, this`chains, nodes
      ensures Chained(table, chains, nodes) && (table == old(table) || fresh(table))
      ensures entries == old(entries) + 1 && !TooFull(entries, table.Length)
    {
      entries := entries + 1;
      if TooFull(entries, table.Length) {
        Resize();
      }
    }

    /** new_jcc. */
    method NewJcc(key: Key) returns (j: Jcc)
      requires Holds() && !Has(nodes, key)
      modifies this`entries, this`table, this`chains, this`nodes, table, nodes
      ensures Holds() && fresh(j) && j.key == key
      ensures nodes == old(nodes) + {j}
      ensures table == old(table) || fresh(table)
    {
      hide Indexed, Linked, TooFull;
      MakeRoom();
      j, chains := AddNew(table, key, chains, nodes);
      AddDistinct(nodes, j);
      nodes := nodes + {j};
    }

    /** The walk of get_jcc along the chain for the key. */
    method Lookup(key: Key) returns (j: Jcc?)
      requires Holds()
      ensures j == null ==> !Has(nodes, key)
      ensures j != null ==> j in nodes && j.key == key
    {
      var idx := HashIdx(key, table.Length);
      j := Search(table[idx], key, chains[idx]);
    }

    /** The last-used records of the two blocks, if one of them is for the key. */
    method LastUsed(from: Bbcc, jmp: nat, to: Bbcc) returns (j: Jcc?)
      requires Fine() && from in blocks && to in blocks
      ensures j != null ==> j in nodes && j.key == Key(from, jmp, to) && (j == to.lruTo || j == from.lruFrom)
    {
      j := to.lruTo;
      if j != null && j.key.from == from && j.key.jmp == jmp {
        assert to == j.key.to;
        return;
      }
      j := from.lruFrom;
      if j != null && j.key.to == to && j.key.jmp == jmp {
        assert from == j.key.from;
        return;
      }
      j := null;
    }

    method FindOrAdd(key: Key) returns (j: Jcc)
      requires Holds()
      modifies this`entries, this`table, this`chains, this`nodes, table, nodes
      ensures Holds() && (table == old(table) || fresh(table))
      ensures Answers(old(nodes), key, j, nodes)
      ensures !Has(old(nodes), key) ==> fresh(j)
    {
      var found := Lookup(key);
      if found != null {
        j := found;
      } else {
        j := NewJcc(key);
      }
    }

    method SetLastUsed(from: Bbcc, to: Bbcc, j: Jcc)
      requires Fine() && j in nodes && from == j.key.from && to == j.key.to
      modifies from`lruFrom, to`lruTo
      ensures Fine() && from.lruFrom == to.lruTo == j
    {
      from.lruFrom := j;
      to.lruTo := j;
    }

    /** get_jcc: the record for the key, new only if there was none. */
    method GetJcc(from: Bbcc, jmp: nat, to: Bbcc) returns (j: Jcc)
      requires Fine() && from in blocks && to in blocks
      modifies this`entries, this`table, this`chains, this`nodes, table, nodes, from`lruFrom, to`lruTo
      ensures Fine() && (table == old(table) || fresh(table))
      ensures Answers(old(nodes), Key(from, jmp, to), j, nodes)
      ensures !Has(old(nodes), Key(from, jmp, to)) ==> fresh(j)
      ensures j == old(to.lruTo) || j == old(from.lruFrom) || (j == to.lruTo && j == from.lruFrom)
    {
      hide DistinctKeys, Chained, TooFull;
      var lru := LastUsed(from, jmp, to);
      if lru != null {
        return lru;
      }
      j := FindOrAdd(Key(from, jmp, to));
      SetLastUsed(from, to, j);
    }

    /** A run of get_jcc over any requests among the blocks of this table: it is a served run, so two
        requests get the same record exactly when they are for the same arc. */
    method GetAll(keys: seq<Key>) returns (js: seq<Jcc>, ghost states: seq<set<Jcc>>)
      requires Fine() && forall i :: 0 <= i < |keys| ==> keys[i].from in blocks && keys[i].to in blocks
      modifies this`entries, this`table, this`chains, this`nodes, table, nodes, blocks
      ensures Fine() && Served(states, keys, js)
      ensures states[0] == old(nodes) && states[|keys|] == nodes
      ensures forall i, k :: 0 <= i < k < |keys| ==> (js[i] == js[k] <==> keys[i] == keys[k])
    {
      hide DistinctKeys, Chained, TooFull, Answers;
      js, states := [], [nodes];
      FineIsDistinct();
      for n := 0 to |keys|
        invariant Fine() && Served(states, keys[..n], js)
        invariant states[0] == old(nodes) && states[n] == nodes
        invariant table == old(table) || fresh(table)
        invariant forall j :: j in nodes ==> j in old(nodes) || fresh(j)
      {
        ghost var before := nodes;
        var j := GetJcc(keys[n].from, keys[n].jmp, keys[n].to);
        AnswersAdds(before, keys[n], j, nodes);
        ServedMore(states, keys[..n], js, keys[n], j, nodes);
        assert keys[..n + 1] == keys[..n] + [keys[n]];
        js, states := js + [j], states + [nodes];
      }
      assert keys[..|keys|] == keys;
      forall i, k | 0 <= i < k < |keys|
        ensures js[i] == js[k] <==> keys[i] == keys[k]
      {
        SameRecordIffSameKey(states, keys, js, i, k);
      }
    }

    lemma FineIsDistinct()
      requires Fine()
      ensures DistinctKeys(nodes)
    {
    }
  }
}
