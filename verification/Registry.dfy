/** A registry of objects by key; exceptions are returned as errors. */
module Registry {
  import opened Wrappers

  type Record = map<string, string>

  // What an object was loaded with, and whether it is attached to its neighbours.
  class Registrable {
    const key: int
    var content: Option<Record>
    var linked: bool

    constructor (key: int)
      ensures this.key == key && content == None && !linked
    {
      this.key, content, linked := key, None, false;
    }
  }

  datatype Error = KeyIsZero | DuplicateKey | NotFound

  datatype Entry = Entry(content: Option<Record>, linked: bool)

  class Registry {
    var objects: map<int, Registrable>

    // Every object stands under its own key, and 0 is no key.
    ghost predicate Valid()
      reads this
    {
      forall k <- objects :: k != 0 && objects[k].key == k
    }

    ghost function Items(): set<Registrable>
      reads this
    {
      set k <- objects :: objects[k]
    }

    ghost function View(): map<int, Entry>
      reads this, Items()
    {
      map k <- objects :: Entry(objects[k].content, objects[k].linked)
    }

    constructor ()
      ensures Valid() && objects == map[]
    {
      objects := map[];
    }

    predicate Contains(key: int)
      reads this
    {
      key in objects
    }

    method GetEditable(key: int) returns (item: Option<Registrable>)
      ensures item == if key in objects then Some(objects[key]) else None
    {
      item := if key in objects then Some(objects[key]) else None;
    }

    method Add(item: Registrable) returns (error: Option<Error>)
      requires Valid()
      modifies this
      ensures Valid() && (error.None? <==> item.key != 0 && item.key !in old(objects))
      ensures objects == if error.None? then old(objects)[item.key := item] else old(objects)
      ensures error.Some? ==> error.value == if item.key == 0 then KeyIsZero else DuplicateKey
    {
      if item.key == 0 { return Some(KeyIsZero); }
      if Contains(item.key) { return Some(DuplicateKey); }
      objects := objects[item.key := item];
      error := None;
    }

    method Remove(key: int) returns (error: Option<Error>)
      requires Valid()
      modifies this
      ensures Valid() && (error.None? <==> key in old(objects)) && objects == old(objects) - {key}
      ensures error.Some? ==> error.value == if key == 0 then KeyIsZero else NotFound
    {
      if key == 0 { return Some(KeyIsZero); }
      if !Contains(key) { return Some(NotFound); }
      objects := objects - {key};
      error := None;
    }

    // Only an object that has a key already in use can replace another.
    method Replace(item: Registrable) returns (error: Option<Error>)
      requires Valid()
      modifies this
      ensures Valid() && (error.None? <==> item.key in old(objects))
      ensures objects == if error.None? then old(objects)[item.key := item] else old(objects)
    {
      error := Remove(item.key);
      if error.None? { objects := objects[item.key := item]; }
    }
  }
}
