/**
  The two account backends of the connector (connector/src/backend/mod.rs, tempdb.rs): one looks
  accounts up by scanning, the other keeps an index per key and per address.  Where the indexed
  one is exact, it gives the answers of the scanning one.
 */
module AccountBackend {
  import opened Wrappers

  type Id = nat
  type Key = nat
  type Address = nat

  /** `details` stands for the fields no lookup goes by. */
  datatype Account = Account(id: Id, key: Key, address: Address, details: nat)

  // ----- Scanning -----

  /** What a scan for `key` may answer, whatever the order in which it visits the accounts. */
  ghost predicate ScanByKey(accounts: map<Id, Account>, key: Key, r: Option<Account>) {
    match r
    case Some(a) => a.key == key && exists id :: id in accounts && accounts[id] == a
    case None => forall id :: id in accounts ==> accounts[id].key != key
  }

  ghost predicate ScanByAddress(accounts: map<Id, Account>, address: Address, r: Option<Account>) {
    match r
    case Some(a) => a.address == address && exists id :: id in accounts && accounts[id] == a
    case None => forall id :: id in accounts ==> accounts[id].address != address
  }

  class InMemoryBackend {
    var accounts: map<Id, Account>

    constructor ()
      ensures accounts == map[]
    {
      accounts := map[];
    }

    method InsertAccount(a: Account) returns (previous: Option<Account>)
      modifies this
      ensures accounts == old(accounts)[a.id := a]
      ensures previous == if a.id in old(accounts) then Some(old(accounts)[a.id]) else None
    {
      previous := if a.id in accounts then Some(accounts[a.id]) else None;
      accounts := accounts[a.id := a];
    }

    method GetAccountByKey(key: Key) returns (r: Option<Account>)
      ensures ScanByKey(accounts, key, r)
    {
      var ids := accounts.Keys;
      while ids != {}
        invariant ids <= accounts.Keys
        invariant forall id :: id in accounts && id !in ids ==> accounts[id].key != key
      {
        var id :| id in ids;
        if accounts[id].key == key {
          return Some(accounts[id]);
        }
        ids := ids - {id};
      }
      r := None;
    }

    method GetAccountByAddress(address: Address) returns (r: Option<Account>)
      ensures ScanByAddress(accounts, address, r)
    {
      var ids := accounts.Keys;
      while ids != {}
        invariant ids <= accounts.Keys
        invariant forall id :: id in accounts && id !in ids ==> accounts[id].address != address
      {
        var id :| id in ids;
        if accounts[id].address == address {
          return Some(accounts[id]);
        }
        ids := ids - {id};
      }
      r := None;
    }
  }

  // ----- Indexed -----

  datatype Tables = Tables(accounts: map<Id, Account>, addressToId: map<Address, Id>, keyToId: map<Key, Id>)
  {
    function Insert(a: Account): Tables {
      var stale := if a.id in accounts then Some(accounts[a.id]) else None;
      Tables(
        accounts[a.id := a],
        (if stale.Some? then addressToId - {stale.value.address} else addressToId)[a.address := a.id],
        (if stale.Some? then keyToId - {stale.value.key} else keyToId)[a.key := a.id])
    }

    function Run(inserts: seq<Account>): Tables {
      if inserts == [] then this else Run(inserts[..|inserts| - 1]).Insert(inserts[|inserts| - 1])
    }

    function ById(id: Id): Option<Account> {
      if id in accounts then Some(accounts[id]) else None
    }

    function ByKey(key: Key): Option<Account> {
      if key in keyToId then ById(keyToId[key]) else None
    }

    function ByAddress(address: Address): Option<Account> {
      if address in addressToId then ById(addressToId[address]) else None
    }

    /** Both secondary tables are inverses of the account table. */
    ghost predicate Exact() {
      && (forall id :: id in accounts ==>
            && accounts[id].key in keyToId && keyToId[accounts[id].key] == id
            && accounts[id].address in addressToId && addressToId[accounts[id].address] == id)
      && (forall k :: k in keyToId ==> keyToId[k] in accounts && accounts[keyToId[k]].key == k)
      && (forall d :: d in addressToId ==> addressToId[d] in accounts && accounts[addressToId[d]].address == d)
    }

    /** Another account already has the key or the address of `a`. */
    ghost predicate Clashes(a: Account) {
      exists id :: id in accounts && id != a.id && (accounts[id].key == a.key || accounts[id].address == a.address)
    }

    /** The tables stay exact exactly when the account takes nobody else's key or address. */
    lemma InsertKeepsExact(a: Account)
      requires Exact()
      ensures Insert(a).Exact() <==> !Clashes(a)
    {
      var t := Insert(a);
      assert t.accounts[a.id] == a;
      if Clashes(a) {
        var id :| id in accounts && id != a.id && (accounts[id].key == a.key || accounts[id].address == a.address);
        assert t.accounts[id] == accounts[id];
      }
    }

    ghost predicate NoneClashes(inserts: seq<Account>) {
      inserts == [] ||
      (NoneClashes(inserts[..|inserts| - 1]) && !Run(inserts[..|inserts| - 1]).Clashes(inserts[|inserts| - 1]))
    }

    lemma {:induction false} RunKeepsExact(inserts: seq<Account>)
      requires Exact() && NoneClashes(inserts)
      ensures Run(inserts).Exact()
    {
      if inserts != [] {
        var n := |inserts| - 1;
        RunKeepsExact(inserts[..n]);
        Run(inserts[..n]).InsertKeepsExact(inserts[n]);
      }
    }

    /** In exact tables an index gives the one answer any scan can give. */
    lemma ExactTablesAnswerAsScans(key: Key, address: Address, r: Option<Account>)
      requires Exact()
      ensures ScanByKey(accounts, key, r) <==> r == ByKey(key)
      ensures ScanByAddress(accounts, address, r) <==> r == ByAddress(address)
    {
      if r.Some? {
        forall id | id in accounts && accounts[id] == r.value
          ensures r.value.key == key ==> keyToId[key] == id
          ensures r.value.address == address ==> addressToId[address] == id
        {
        }
      }
    }
  }

  class TempDbBackend {
    var accounts: map<Id, Account>
    var addressToId: map<Address, Id>
    var keyToId: map<Key, Id>

    ghost function Model(): Tables
      reads this
    {
      Tables(accounts, addressToId, keyToId)
    }

    constructor ()
      ensures Model() == Tables(map[], map[], map[])
    {
      accounts, addressToId, keyToId := map[], map[], map[];
    }

    method InsertAccount(a: Account) returns (previous: Option<Account>)
      modifies this
      ensures Model() == old(Model()).Insert(a)
      ensures previous == old(Model()).ById(a.id)
    {
      previous := if a.id in accounts then Some(accounts[a.id]) else None;
      accounts := accounts[a.id := a];
      if previous.Some? {
        addressToId := addressToId - {previous.value.address};
        keyToId := keyToId - {previous.value.key};
      }
      addressToId := addressToId[a.address := a.id];
      keyToId := keyToId[a.key := a.id];
    }

    method GetAccountByKey(key: Key) returns (r: Option<Account>)
      ensures r == Model().ByKey(key)
      ensures Model().Exact() ==> ScanByKey(accounts, key, r)
    {
      if key !in keyToId {
        r := None;
      } else {
        var id := keyToId[key];
        r := if id in accounts then Some(accounts[id]) else None;
      }
      if Model().Exact() {
        Model().ExactTablesAnswerAsScans(key, 0, r);
      }
    }

    method GetAccountByAddress(address: Address) returns (r: Option<Account>)
      ensures r == Model().ByAddress(address)
      ensures Model().Exact() ==> ScanByAddress(accounts, address, r)
    {
      if address !in addressToId {
        r := None;
      } else {
        var id := addressToId[address];
        r := if id in accounts then Some(accounts[id]) else None;
      }
      if Model().Exact() {
        Model().ExactTablesAnswerAsScans(0, address, r);
      }
    }
  }

  /** The accounts the scanning backend has after the same inserts. */
  function Accounts(inserts: seq<Account>): map<Id, Account> {
    if inserts == [] then map[]
    else
      var a := inserts[|inserts| - 1];
      Accounts(inserts[..|inserts| - 1])[a.id := a]
  }

  lemma {:induction false} SameAccounts(inserts: seq<Account>)
    ensures Tables(map[], map[], map[]).Run(inserts).accounts == Accounts(inserts)
  {
    if inserts != [] {
      SameAccounts(inserts[..|inserts| - 1]);
    }
  }

  /** After any run of inserts that never clash, the indexed backend gives for each id, key and
      address the only answer the scanning backend can give. */
  lemma IndexedRefinesScanning(inserts: seq<Account>, id: Id, key: Key, address: Address, r: Option<Account>)
    requires Tables(map[], map[], map[]).NoneClashes(inserts)
    ensures var t := Tables(map[], map[], map[]).Run(inserts);
            && (t.ById(id) == if id in Accounts(inserts) then Some(Accounts(inserts)[id]) else None)
            && (ScanByKey(Accounts(inserts), key, r) <==> r == t.ByKey(key))
            && (ScanByAddress(Accounts(inserts), address, r) <==> r == t.ByAddress(address))
  {
    SameAccounts(inserts);
    Tables(map[], map[], map[]).RunKeepsExact(inserts);
    Tables(map[], map[], map[]).Run(inserts).ExactTablesAnswerAsScans(key, address, r);
  }

  /** Two ids with one key: when the first moves to another key, the index forgets that the
      second still has it, while every scan finds it. */
  lemma ClashLosesAnAccount(a: Account, b: Account, moved: Account)
    requires a.id != b.id && a.key == b.key && moved.id == a.id && moved.key != a.key
    ensures var t := Tables(map[], map[], map[]).Insert(a).Insert(b).Insert(moved);
            && t.ByKey(b.key) == None
            && forall r :: ScanByKey(t.accounts, b.key, r) <==> r == Some(b)
  {
    var t := Tables(map[], map[], map[]).Insert(a).Insert(b).Insert(moved);
    assert t.accounts == map[a.id := moved, b.id := b];
    assert b.id in t.accounts;
  }
}
