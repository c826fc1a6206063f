/** The two directories the executor works in. Every operation may fail, the existence probe included: a
    ghost counter records failed calls, another one the probes that missed a file, and a ghost trace records
    every state the directories pass through. */
module Files {
  import opened SqlTypes

  type Dir = map<string, string>

  /** data_dir and the stage directory that a script with an INSERT creates. */
  datatype Place = Data | Stage

  datatype World = World(data: Dir, stage: Dir) {
    function At(p: Place): Dir {
      match p
      case Data => data
      case Stage => stage
    }

    function With(p: Place, dir: Dir): World {
      match p
      case Data => World(dir, stage)
      case Stage => World(data, dir)
    }

    function Set(p: Place, name: string, bytes: string): World {
      With(p, At(p)[name := bytes])
    }

    function Unset(p: Place, name: string): World {
      With(p, At(p) - {name})
    }
  }

  function Lookup(dir: Dir, name: string): Option<string> {
    if name in dir then Some(dir[name]) else None
  }

  /** The worlds agree except for one file. */
  ghost predicate SameBut(a: World, b: World, p: Place, name: string) {
    b == a.With(p, b.At(p)) && b.At(p) - {name} == a.At(p) - {name}
  }

  /** build_relative_name and the name part of build_data_path */
  function RelativeName(schema: Option<string>, table: string, suffix: string): string {
    (if schema.Some? then schema.value + "__" else "") + table + suffix
  }

  function CsvName(schema: Option<string>, table: string): string {
    RelativeName(schema, table, ".csv")
  }

  function SchemaName(schema: Option<string>, table: string): string {
    RelativeName(schema, table, ".schema.csv")
  }

  /** A system call that can fail. */
  datatype Call =
    | MakingStage
    | Opening(p: Place, name: string)
    | Creating(p: Place, name: string)
    | Writing(p: Place, name: string)
    | Removing(p: Place, name: string)
    | Moving(p: Place, name: string, p': Place, name': string)
    | Copying(p: Place, name: string, p': Place, name': string)
    | Buffering
    | Printing

  class FileSystem {
    var world: World
    ghost var faults: nat
    ghost var lastFailed: Call
    ghost var misreads: nat
    ghost var trace: seq<World>

    constructor (data: Dir)
      ensures world == World(data, map[]) && faults == 0 && misreads == 0 && trace == [world]
    {
      world := World(data, map[]);
      faults := 0;
      lastFailed := MakingStage;
      misreads := 0;
      trace := [World(data, map[])];
    }

    /** The environment decides whether the next system call works. */
    method Works(ghost call: Call) returns (ok: bool)
      modifies this`faults, this`lastFailed
      ensures faults == if ok then old(faults) else old(faults) + 1
      ensures lastFailed == if ok then old(lastFailed) else call
    {
      ok := *;
      if !ok { faults, lastFailed := faults + 1, call; }
    }

    ghost method Record()
      modifies this`trace
      ensures trace == old(trace) + [world]
    {
      trace := trace + [world];
    }

    /** file_exists: an fopen, so a file that is there may be missed; no file is seen that is not there. */
    method Exists(p: Place, name: string) returns (found: bool)
      modifies this`misreads
      ensures misreads >= old(misreads)
      ensures found <==> name in world.At(p) && misreads == old(misreads)
      ensures name !in world.At(p) ==> misreads == old(misreads)
    {
      found := false;
      if name in world.At(p) {
        found := *;
        if !found { misreads := misreads + 1; }
      }
    }

    /** fopen(path, "rb") and reading to the end */
    method Open(p: Place, name: string) returns (bytes: Option<string>)
      modifies this`faults, this`lastFailed
      ensures old(faults) <= faults <= old(faults) + 1
      ensures lastFailed == if faults == old(faults) then old(lastFailed) else Opening(p, name)
      ensures bytes == if faults == old(faults) then Lookup(world.At(p), name) else None
      ensures name !in world.At(p) ==> faults == old(faults)
    {
      if name !in world.At(p) { return None; }
      var ok := Works(Opening(p, name));
      bytes := if ok then Some(world.At(p)[name]) else None;
    }

    /** The same when the caller tells a missing file, Ok(None), from a failure by errno. */
    method OpenIfPresent(p: Place, name: string) returns (r: Result<Option<string>>)
      modifies this`faults, this`lastFailed
      ensures old(faults) <= faults <= old(faults) + 1
      ensures lastFailed == if faults == old(faults) then old(lastFailed) else Opening(p, name)
      ensures r == if faults == old(faults) then Ok(Lookup(world.At(p), name)) else Err(Io)
    {
      if name !in world.At(p) { return Ok(None); }
      var ok := Works(Opening(p, name));
      r := if ok then Ok(Some(world.At(p)[name])) else Err(Io);
    }

    /** fopen(path, "w+b") on a fresh name */
    method Create(p: Place, name: string) returns (ok: bool)
      modifies this`world, this`faults, this`lastFailed, this`trace
      ensures faults == if ok then old(faults) else old(faults) + 1
      ensures lastFailed == if ok then old(lastFailed) else Creating(p, name)
      ensures world == if ok then old(world).Set(p, name, "") else old(world)
      ensures trace == old(trace) + [world]
    {
      ok := Works(Creating(p, name));
      if ok { world := world.Set(p, name, ""); }
      Record();
    }

    /** Opening for writing, the writes and fclose: a failure leaves the file absent or with any bytes. */
    method Write(p: Place, name: string, bytes: string, ghost call: Call) returns (ok: bool)
      modifies this`world, this`faults, this`lastFailed, this`trace
      ensures faults == if ok then old(faults) else old(faults) + 1
      ensures lastFailed == if ok then old(lastFailed) else call
      ensures ok ==> world == old(world).Set(p, name, bytes)
      ensures SameBut(old(world), world, p, name)
      ensures trace == old(trace) + [world]
    {
      ok := Works(call);
      if ok {
        world := world.Set(p, name, bytes);
      } else {
        var left: Option<string> := *;
        world := if left.Some? then world.Set(p, name, left.value) else world.Unset(p, name);
      }
      Record();
    }

    method Remove(p: Place, name: string) returns (ok: bool)
      modifies this`world, this`faults, this`lastFailed, this`trace
      ensures old(faults) <= faults <= old(faults) + 1
      ensures lastFailed == if faults == old(faults) then old(lastFailed) else Removing(p, name)
      ensures world == if ok then old(world).Unset(p, name) else old(world)
      ensures faults == old(faults) ==> world == old(world).Unset(p, name)
      ensures old(name in world.At(p)) && faults == old(faults) ==> ok
      ensures trace == old(trace) + [world]
    {
      ok := false;
      if name in world.At(p) {
        ok := Works(Removing(p, name));
        if ok { world := world.Unset(p, name); }
      } else {
        assert world.At(p) - {name} == world.At(p);
      }
      Record();
    }

    /** rename */
    method Move(p: Place, name: string, p': Place, name': string) returns (ok: bool)
      requires (p, name) != (p', name')
      modifies this`world, this`faults, this`lastFailed, this`trace
      ensures old(faults) <= faults <= old(faults) + 1
      ensures lastFailed == if faults == old(faults) then old(lastFailed) else Moving(p, name, p', name')
      ensures !ok ==> world == old(world)
      ensures ok ==> faults == old(faults)
      ensures ok ==> old(name in world.At(p)) && world == old(world.Set(p', name', world.At(p)[name]).Unset(p, name))
      ensures faults == old(faults) ==> ok == old(name in world.At(p))
      ensures trace == old(trace) + [world]
    {
      ok := false;
      if name in world.At(p) {
        ok := Works(Moving(p, name, p', name'));
        if ok { world := world.Set(p', name', world.At(p)[name]).Unset(p, name); }
      }
      Record();
    }

    /** copy_file_bytes: a file copied onto itself is truncated before it is read. */
    method Copy(p: Place, name: string, p': Place, name': string) returns (ok: bool)
      modifies this`world, this`faults, this`lastFailed, this`trace
      ensures old(faults) <= faults <= old(faults) + 1
      ensures lastFailed == if faults == old(faults) then old(lastFailed) else Copying(p, name, p', name')
      ensures ok ==> faults == old(faults) && old(name in world.At(p))
      ensures ok ==>
                world == old(world.Set(p', name', if (p, name) == (p', name') then "" else world.At(p)[name]))
      ensures SameBut(old(world), world, p', name')
      ensures faults == old(faults) ==> ok == old(name in world.At(p)) && (!ok ==> world == old(world))
      ensures old(name !in world.At(p)) ==> faults == old(faults)
      ensures trace == old(trace) + [world]
    {
      if name !in world.At(p) {
        Record();
        return false;
      }
      var bytes := if (p, name) == (p', name') then "" else world.At(p)[name];
      ok := Write(p', name', bytes, Copying(p, name, p', name'));
    }
  }
}
