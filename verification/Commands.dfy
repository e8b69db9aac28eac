/** The command registry: a hash table kept free of duplicate names, seen as a finite map. */
module Commands {
  import opened Common
  import opened HashModel
  import opened HashTable

  const NAME_LEN := 100
  const DESCRIPTION_LEN := 256

  /** A command: what its name is bound to. `proc` stands for the function pointer. */
  datatype Info = Info(name: string, description: string, proc: int)

  class Registry {
    const table: Table<string, Info>
    ghost var commands: map<string, Info>

    ghost predicate Valid()
      reads this, table, table.table, table.nodes
    {
      table.Valid() && Represents(table.hash, table.pairs, commands)
    }

    constructor (hash: string -> nat, limitOf: nat -> nat)
      ensures Valid() && commands == map[]
    {
      table := new Table(32, hash, limitOf);
      commands := map[];
      new;
      table.PairsPlaced();
      FlatEmpty(table.pairs);
      assert commands.Items == {};
    }

    /** Binds a name, replacing an older binding. */
    method Register(name: string, proc: int, description: string)
      requires Valid() && |name| < NAME_LEN && |description| < DESCRIPTION_LEN
      modifies this, table, table.table, table.nodes
      ensures Valid() && commands == old(commands)[name := Info(name, description, proc)]
    {
      hide Represents, Rehash, Pushed, Lookup, Table.Valid;
      LookupIsMap(table.hash, table.pairs, commands, name);
      var info := table.Search(name);
      if info.Some? {
        Unregister(name);
      }
      assert old(commands)[name := Info(name, description, proc)] == commands[name := Info(name, description, proc)];
      Add(name, Info(name, description, proc));
    }

    method Add(name: string, info: Info)
      requires Valid() && name !in commands
      modifies this, table, table.table, table.nodes
      ensures Valid() && commands == old(commands)[name := info]
    {
      hide Represents, Rehash, Pushed, Flat, Empty, NoPairs, Homes, AllHang;
      ghost var was := table.pairs;
      if table.primeindex != |PRIMES| - 1 {
        ghost var empty: seq<seq<(string, Info)>> := NoPairs(PRIMES[table.primeindex + 1]);
        IsEmpty(empty);
        GrownRepresents(table.hash, was, empty, commands);
        PushedRepresents(table.hash, Rehash(table.hash, was, empty), commands, name, info);
      }
      PushedRepresents(table.hash, was, commands, name, info);
      table.Insert(name, info);
      commands := commands[name := info];
    }

    method Unregister(name: string)
      requires Valid()
      modifies this, table, table.table, table.nodes
      ensures Valid() && commands == old(commands) - {name}
      ensures table.table == old(table.table) && table.nodes == old(table.nodes)
    {
      hide Represents, Removed, Flat, Homes, AllHang;
      LookupIsMap(table.hash, table.pairs, commands, name);
      ghost var b := Bucket(table.hash, table.pairs, name);
      ghost var f := Find(table.pairs[b], name);
      if f.Some? {
        RemovedRepresents(table.hash, table.pairs, commands, b, f.value);
      } else {
        assert commands - {name} == commands;
      }
      table.Remove(name);
      commands := commands - {name};
    }

    method Get(name: string) returns (r: Option<Info>)
      requires Valid()
      ensures r == if name in commands then Some(commands[name]) else None
    {
      r := table.Search(name);
      LookupIsMap(table.hash, table.pairs, commands, name);
    }

    method Count() returns (n: nat)
      requires Valid()
      ensures n == |commands|
    {
      n := table.entrycount;
      CountIsSize(table.hash, table.pairs, commands);
    }
  }
}
