/** The key-value server: hashes under keys, with the three commands the program uses. */
module Redis {
  import opened Wrappers

  type Hash = map<string, string>
  type Store = map<string, Hash>

  /** An element of an array reply may be missing or without a string. */
  datatype Reply = NoReply | OtherReply | Array(elements: seq<Option<string>>)

  function HashAt(store: Store, key: string): Hash {
    if key in store then store[key] else map[]
  }

  function WithField(store: Store, key: string, field: string, value: string): Store {
    store[key := HashAt(store, key)[field := value]]
  }

  /** Fields and values in turn. */
  function Flatten(fields: seq<string>, hash: Hash): seq<Option<string>>
    requires forall f :: f in fields ==> f in hash
  {
    if fields == [] then [] else [Some(fields[0]), Some(hash[fields[0]])] + Flatten(fields[1..], hash)
  }

  ghost predicate Distinct(fields: seq<string>) {
    forall i, j :: 0 <= i < j < |fields| ==> fields[i] != fields[j]
  }

  /** The fields of a hash in some order. */
  ghost predicate Orders(fields: seq<string>, hash: Hash) {
    Distinct(fields) && (forall f :: f in fields <==> f in hash)
  }

  /** HGETALL may list the fields in any order. */
  ghost predicate Enumerates(elements: seq<Option<string>>, hash: Hash) {
    exists fields :: Orders(fields, hash) && elements == Flatten(fields, hash)
  }

  /** An HGETALL and what came back. */
  datatype Exchange = Exchange(key: string, reply: Reply)

  class Server {
    var store: Store
    ghost var asked: seq<Exchange> // every HGETALL so far

    constructor (store: Store)
      ensures this.store == store && asked == []
    {
      this.store := store;
      asked := [];
    }

    method Del(key: string)
      modifies this`store
      ensures store == old(store) - {key}
    {
      store := store - {key};
    }

    method HSet(key: string, field: string, value: string)
      modifies this`store
      ensures store == WithField(old(store), key, field, value)
    {
      store := WithField(store, key, field, value);
    }

    /** A failed connection or an error gives no array; otherwise the whole hash, in any order. */
    method HGetAll(key: string) returns (reply: Reply)
      modifies this`asked
      ensures asked == old(asked) + [Exchange(key, reply)]
      ensures reply.Array? ==> Enumerates(reply.elements, HashAt(store, key))
    {
      if * {
        reply := NoReply;
      } else if * {
        reply := OtherReply;
      } else {
        reply := AllFields(key);
      }
      asked := asked + [Exchange(key, reply)];
    }

    /** The reply that lists the whole hash. */
    method AllFields(key: string) returns (reply: Reply)
      ensures reply.Array? && Enumerates(reply.elements, HashAt(store, key))
    {
      var hash := HashAt(store, key);
      var left, fields: seq<string> := hash.Keys, [];
      while left != {}
        invariant left <= hash.Keys && Distinct(fields)
        invariant forall f :: f in fields <==> f in hash && f !in left
        decreases left
      {
        var f :| f in left;
        fields := fields + [f];
        left := left - {f};
      }
      reply := Array(Flatten(fields, hash));
    }
  }
}
