/**
  The stacked write-back cache over the coin database.

  Every cache keeps entries flagged DIRTY (may differ from the view below) and FRESH (the view
  below has no unspent record). A whole stack must behave like one flat map from transaction
  ids to unspent records; `Visible` is that map and every operation is specified on it alone.
 */
module CoinsCache {
  import opened Coins

  datatype CacheEntry = CacheEntry(coins: Coins, dirty: bool, isFresh: bool)
  type CoinsMap = map<TxId, CacheEntry>
  type Utxos = map<TxId, Coins>

  predicate Clean(c: Coins) { |c.vout| > 0 ==> !c.vout[|c.vout| - 1].IsNull() }

  ghost predicate UnspentOnly(m: Utxos) { forall id <- m :: Clean(m[id]) && !m[id].IsPruned() }

  /** The unspent records seen through a cache that lies on top of `below`. */
  ghost function Overlay(cache: CoinsMap, below: Utxos): (r: Utxos)
  {
    map id | id in cache.Keys + below.Keys && (id in cache ==> !cache[id].coins.IsPruned())
      :: if id in cache then cache[id].coins else below[id]
  }

  ghost function Lookup(m: Utxos, id: TxId): Coins { if id in m then m[id] else NO_COINS }

  /** The flat map after the record of `id` has become `c`. */
  ghost function Put(m: Utxos, id: TxId, c: Coins): (r: Utxos)
  {
    if c.IsPruned() then m - {id} else m[id := c]
  }

  /**
    What one cache owes the view below it. `held` are the ids cached by the next cache down; it
    constrains nothing when the next view is the database (`onDb`).
   */
  ghost predicate EntryOk(id: TxId, e: CacheEntry, below: Utxos, held: set<TxId>, onDb: bool)
  {
    && Clean(e.coins)
    && (e.isFresh ==> id !in below)
    && (!e.dirty ==> if e.coins.IsPruned() then id !in below else id in below && below[id] == e.coins)
    && (!e.isFresh ==> onDb || id in held)
  }

  ghost predicate LevelOk(cache: CoinsMap, below: Utxos, held: set<TxId>, onDb: bool)
  {
    forall id <- cache :: EntryOk(id, cache[id], below, held, onDb)
  }

  lemma OverlayUnspent(cache: CoinsMap, below: Utxos, held: set<TxId>, onDb: bool)
    requires LevelOk(cache, below, held, onDb) && UnspentOnly(below)
    ensures UnspentOnly(Overlay(cache, below))
  {
  }

  /** Dirty entries replace what is below, and erase it if they are spent; nothing else changes. */
  ghost predicate OnlyDirtyWritten(cache: CoinsMap, below: Utxos, r: Utxos)
  {
    && (forall id <- cache :: cache[id].dirty ==>
          if cache[id].coins.IsPruned() then id !in r else id in r && r[id] == cache[id].coins)
    && (forall id :: id in r && (id in cache ==> !cache[id].dirty) ==> id in below && below[id] == r[id])
    && (forall id <- below :: (id in cache ==> !cache[id].dirty) ==> id in r)
  }

  lemma DirtyEntriesCount(cache: CoinsMap, below: Utxos, held: set<TxId>)
    requires LevelOk(cache, below, held, true)
    ensures OnlyDirtyWritten(cache, below, Overlay(cache, below))
  {
    hide Clean, Coins.IsPruned;
    forall id | id in cache ensures EntryOk(id, cache[id], below, held, true) { }
  }

  // ---- BatchWrite, one entry at a time ----

  /** What a cache does with one entry handed down by the cache above it. */
  function WriteEntry(cache: CoinsMap, id: TxId, e: CacheEntry): (r: CoinsMap)
  {
    if !e.dirty then cache
    else if id !in cache then
      if e.coins.IsPruned() then cache else cache[id := CacheEntry(e.coins, true, true)]
    else if cache[id].isFresh && e.coins.IsPruned() then cache - {id}
    else cache[id := CacheEntry(e.coins, true, cache[id].isFresh)]
  }

  lemma OverlaySet(cache: CoinsMap, below: Utxos, id: TxId, e: CacheEntry)
    ensures Overlay(cache[id := e], below) == Put(Overlay(cache, below), id, e.coins)
  {
    hide Coins.IsPruned;
    assert Overlay(cache[id := e], below).Keys == Put(Overlay(cache, below), id, e.coins).Keys;
  }

  lemma OverlayDrop(cache: CoinsMap, below: Utxos, id: TxId)
    requires id !in below
    ensures Overlay(cache - {id}, below) == Overlay(cache, below) - {id}
  {
    hide Coins.IsPruned;
    assert Overlay(cache - {id}, below).Keys == (Overlay(cache, below) - {id}).Keys;
  }

  lemma PutSame(m: Utxos, id: TxId, c: Coins)
    requires if c.IsPruned() then id !in m else id in m && m[id] == c
    ensures Put(m, id, c) == m
  {
  }

  lemma WriteEntryPuts(mid: CoinsMap, below: Utxos, held: set<TxId>, onDb: bool, id: TxId, e: CacheEntry)
    requires LevelOk(mid, below, held, onDb)
    requires EntryOk(id, e, Overlay(mid, below), mid.Keys, false)
    ensures Overlay(WriteEntry(mid, id, e), below) == Put(Overlay(mid, below), id, e.coins)
  {
    hide Overlay, Coins.IsPruned;
    if id in mid { assert EntryOk(id, mid[id], below, held, onDb); }
    if !e.dirty {
      PutSame(Overlay(mid, below), id, e.coins);
    } else if id !in mid {
      if e.coins.IsPruned() {
        PutSame(Overlay(mid, below), id, e.coins);
      } else {
        OverlaySet(mid, below, id, CacheEntry(e.coins, true, true));
      }
    } else if mid[id].isFresh && e.coins.IsPruned() {
      OverlayDrop(mid, below, id);
    } else {
      OverlaySet(mid, below, id, CacheEntry(e.coins, true, mid[id].isFresh));
    }
  }

  lemma WriteEntryLevelOk(mid: CoinsMap, below: Utxos, held: set<TxId>, onDb: bool, id: TxId, e: CacheEntry)
    requires LevelOk(mid, below, held, onDb)
    requires EntryOk(id, e, Overlay(mid, below), mid.Keys, false)
    ensures LevelOk(WriteEntry(mid, id, e), below, held, onDb)
  {
    var mid' := WriteEntry(mid, id, e);
    if id !in mid { UncachedIsBelow(mid, below, id); }
    hide Overlay;
    forall k | k in mid' ensures EntryOk(k, mid'[k], below, held, onDb) {
      if k in mid { assert EntryOk(k, mid[k], below, held, onDb); }
    }
  }

  /**
    Moving one entry from the upper cache `top` into the lower cache `mid` changes nothing that can
    be seen from above, keeps both caches consistent, and never needs an entry that is not FRESH
    where the lower cache has none.
   */
  lemma WriteEntryRefines(top: CoinsMap, mid: CoinsMap, below: Utxos, held: set<TxId>, onDb: bool, id: TxId)
    requires LevelOk(mid, below, held, onDb)
    requires LevelOk(top, Overlay(mid, below), mid.Keys, false)
    requires id in top
    ensures top[id].dirty && id !in mid ==> top[id].isFresh
    ensures var mid' := WriteEntry(mid, id, top[id]);
            && LevelOk(mid', below, held, onDb)
            && LevelOk(top - {id}, Overlay(mid', below), mid'.Keys, false)
            && Overlay(top - {id}, Overlay(mid', below)) == Overlay(top, Overlay(mid, below))
  {
    assert EntryOk(id, top[id], Overlay(mid, below), mid.Keys, false);
    hide Overlay;
    WriteEntryPuts(mid, below, held, onDb, id, top[id]);
    WriteEntryLevelOk(mid, below, held, onDb, id, top[id]);
    PutBelow(top, Overlay(mid, below), mid.Keys, WriteEntry(mid, id, top[id]).Keys, false, id);
  }

  /** Once the view below has the record of `id`, the cache above can forget it. */
  lemma PutBelow(top: CoinsMap, below: Utxos, held: set<TxId>, held': set<TxId>, onDb: bool, id: TxId)
    requires LevelOk(top, below, held, onDb) && id in top
    requires held <= held' + {id}
    ensures LevelOk(top - {id}, Put(below, id, top[id].coins), held', onDb)
    ensures Overlay(top - {id}, Put(below, id, top[id].coins)) == Overlay(top, below)
  {
    hide Coins.IsPruned, Clean;
    var below' := Put(below, id, top[id].coins);
    forall k | k in top - {id} ensures EntryOk(k, (top - {id})[k], below', held', onDb) {
      assert EntryOk(k, top[k], below, held, onDb);
    }
    assert Overlay(top - {id}, below') == Overlay(top, below);
  }

  function WriteToDb(db: Utxos, id: TxId, e: CacheEntry): (r: Utxos)
  {
    if !e.dirty then db else if e.coins.IsPruned() then db - {id} else db[id := e.coins]
  }

  lemma WriteToDbRefines(top: CoinsMap, db: Utxos, held: set<TxId>, id: TxId)
    requires UnspentOnly(db) && LevelOk(top, db, held, true) && id in top
    ensures var db' := WriteToDb(db, id, top[id]);
            && UnspentOnly(db')
            && LevelOk(top - {id}, db', held, true)
            && Overlay(top - {id}, db') == Overlay(top, db)
  {
    assert EntryOk(id, top[id], db, held, true);
    if !top[id].dirty { PutSame(db, id, top[id].coins); }
    assert WriteToDb(db, id, top[id]) == Put(db, id, top[id].coins);
    PutBelow(top, db, held, held, true, id);
  }

  // ---- Fetching and modifying one entry ----

  /** An entry copied up from the view below: FRESH exactly when the view below only has a spent one. */
  lemma InsertFetched(cache: CoinsMap, below: Utxos, held: set<TxId>, onDb: bool, id: TxId, c: Coins, dirty: bool, isFresh: bool)
    requires LevelOk(cache, below, held, onDb) && id !in cache && Clean(c)
    requires if c.IsPruned() then id !in below && isFresh else id in below && below[id] == c && !isFresh
    requires isFresh || onDb || id in held
    ensures LevelOk(cache[id := CacheEntry(c, dirty, isFresh)], below, held, onDb)
    ensures Overlay(cache[id := CacheEntry(c, dirty, isFresh)], below) == Overlay(cache, below)
  {
    var cache' := cache[id := CacheEntry(c, dirty, isFresh)];
    forall k | k in cache' ensures EntryOk(k, cache'[k], below, held, onDb) {
      if k != id { assert EntryOk(k, cache[k], below, held, onDb); }
    }
  }

  lemma MarkDirty(cache: CoinsMap, below: Utxos, held: set<TxId>, onDb: bool, id: TxId)
    requires LevelOk(cache, below, held, onDb) && id in cache
    ensures LevelOk(cache[id := cache[id].(dirty := true)], below, held, onDb)
    ensures Overlay(cache[id := cache[id].(dirty := true)], below) == Overlay(cache, below)
  {
    var cache' := cache[id := cache[id].(dirty := true)];
    forall k | k in cache' ensures EntryOk(k, cache'[k], below, held, onDb) {
      assert EntryOk(k, cache[k], below, held, onDb);
    }
  }

  /** What the destructor of a modifier does to the cache. */
  function Released(cache: CoinsMap, id: TxId, c: Coins): (r: CoinsMap)
    requires id in cache
  {
    if cache[id].isFresh && c.IsPruned() then cache - {id} else cache[id := cache[id].(coins := c)]
  }

  lemma ReleasedRefines(cache: CoinsMap, below: Utxos, held: set<TxId>, onDb: bool, id: TxId, c: Coins)
    requires LevelOk(cache, below, held, onDb) && id in cache && cache[id].dirty && Clean(c)
    ensures LevelOk(Released(cache, id, c), below, held, onDb)
    ensures Overlay(Released(cache, id, c), below) == Put(Overlay(cache, below), id, c)
  {
    hide Overlay, Coins.IsPruned;
    var cache' := Released(cache, id, c);
    forall k | k in cache' ensures EntryOk(k, cache'[k], below, held, onDb) {
      assert EntryOk(k, cache[k], below, held, onDb);
    }
    assert EntryOk(id, cache[id], below, held, onDb);
    if cache[id].isFresh && c.IsPruned() {
      OverlayDrop(cache, below, id);
    } else {
      OverlaySet(cache, below, id, cache[id].(coins := c));
    }
  }

  lemma HeldGrows(cache: CoinsMap, below: Utxos, held: set<TxId>, held': set<TxId>, onDb: bool)
    requires LevelOk(cache, below, held, onDb) && held <= held'
    ensures LevelOk(cache, below, held', onDb)
  {
    forall k | k in cache ensures EntryOk(k, cache[k], below, held', onDb) {
      assert EntryOk(k, cache[k], below, held, onDb);
    }
  }

  /** The record a reader gets is, up to the metadata of a spent one, the record of the flat map. */
  lemma CachedIsVisible(cache: CoinsMap, below: Utxos, held: set<TxId>, onDb: bool, id: TxId)
    requires LevelOk(cache, below, held, onDb) && id in cache
    ensures var v := Overlay(cache, below);
            && (id in v <==> !cache[id].coins.IsPruned())
            && (id in v ==> v[id] == cache[id].coins)
            && (id in v <==> cache[id].coins.vout != [])
            && Clean(cache[id].coins)
  {
    assert EntryOk(id, cache[id], below, held, onDb);
    PrunedIffEmpty(cache[id].coins);
  }

  lemma UncachedIsBelow(cache: CoinsMap, below: Utxos, id: TxId)
    requires id !in cache
    ensures id in Overlay(cache, below) <==> id in below
  {
  }

  lemma OverlayEmpty(below: Utxos)
    ensures Overlay(map[], below) == below
  {
  }

  // ---- The objects ----

  class CoinsViewDB {
    var coins: Utxos

    ghost predicate Valid() reads this { UnspentOnly(coins) }

    constructor ()
      ensures Valid() && coins == map[]
    {
      coins := map[];
    }

    method GetCoins(txid: TxId) returns (found: bool, c: Coins)
      requires Valid()
      ensures found == (txid in coins)
      ensures c == Lookup(coins, txid)
    {
      if txid in coins { return true, coins[txid]; }
      return false, NO_COINS;
    }

    /** The database erases what is spent and stores the rest, ignoring entries that are not DIRTY. */
    method BatchWrite(mapCoins: CoinsMap, ghost held: set<TxId>)
      requires Valid() && LevelOk(mapCoins, coins, held, true)
      modifies this
      ensures Valid() && coins == Overlay(mapCoins, old(coins))
      ensures OnlyDirtyWritten(mapCoins, old(coins), coins)
    {
      DirtyEntriesCount(mapCoins, coins, held);
      hide Overlay, EntryOk, WriteEntry, WriteToDb;
      var rest := mapCoins;
      while rest != map[]
        invariant Valid() && LevelOk(rest, coins, held, true)
        invariant Overlay(rest, coins) == Overlay(mapCoins, old(coins))
        decreases |rest|
      {
        var id :| id in rest;
        WriteToDbRefines(rest, coins, held, id);
        coins := WriteToDb(coins, id, rest[id]);
        rest := rest - {id};
      }
      OverlayEmpty(coins);
    }
  }

  class CoinsViewCache {
    const base: CoinsViewCache?   // the next cache down, or null on top of the database
    const db: CoinsViewDB
    var cacheCoins: CoinsMap
    var hasModifier: bool
    ghost const Repr: set<object>

    /** The unspent records of the view below this cache. */
    ghost function Below(): Utxos
      requires Shape()
      reads Repr
      decreases Repr, 0
    {
      if base == null then db.coins else base.Visible()
    }

    /** The unspent records seen through this cache. */
    ghost function Visible(): Utxos
      requires Shape()
      reads Repr
      decreases Repr, 1
    {
      Overlay(cacheCoins, Below())
    }

    ghost predicate Shape()
      decreases Repr
    {
      && this in Repr && db in Repr
      && (base != null ==>
            && base in Repr && base.Repr == Repr - {this} && this !in base.Repr && base.db == db
            && base.Shape())
    }

    /** The unspent records of every view below this cache, nearest first. */
    ghost function Lower(): (r: seq<Utxos>)
      requires Shape()
      reads Repr
      ensures |r| > 0 && r[0] == Below()
      decreases Repr
    {
      if base == null then [db.coins] else [base.Visible()] + base.Lower()
    }

    ghost function Held(): set<TxId>
      requires Shape()
      reads Repr
    {
      if base == null then {} else base.cacheCoins.Keys
    }

    ghost predicate Valid()
      reads Repr
      ensures Valid() ==> Shape()
      decreases Repr
    {
      && Shape()
      && db.Valid()
      && (base != null ==> base.Valid() && !base.hasModifier)
      && LevelOk(cacheCoins, Below(), Held(), base == null)
      && UnspentOnly(Below())
    }

    constructor OnDb(db: CoinsViewDB)
      requires db.Valid()
      ensures Valid() && !hasModifier && fresh(Repr - {db})
      ensures cacheCoins == map[] && Visible() == db.coins
    {
      this.base := null;
      this.db := db;
      cacheCoins := map[];
      hasModifier := false;
      Repr := {this, db};
      new;
      assert Overlay(cacheCoins, db.coins) == db.coins;
    }

    constructor OnCache(base: CoinsViewCache)
      requires base.Valid() && !base.hasModifier
      ensures Valid() && !hasModifier && Repr == base.Repr + {this} && fresh(this)
      ensures this.base == base && cacheCoins == map[] && Visible() == base.Visible()
    {
      this.base := base;
      this.db := base.db;
      cacheCoins := map[];
      hasModifier := false;
      Repr := base.Repr + {this};
      new;
      VisibleUnspent(base);
      assert base.Repr == Repr - {this};
      assert Overlay(cacheCoins, base.Visible()) == base.Visible();
    }

    static lemma VisibleUnspent(view: CoinsViewCache)
      requires view.Valid()
      ensures UnspentOnly(view.Visible())
    {
      OverlayUnspent(view.cacheCoins, view.Below(), view.Held(), view.base == null);
    }

    /** Read a record from the view below; a cache below may fill itself while answering. */
    method GetFromBase(txid: TxId) returns (found: bool, c: Coins)
      requires Valid()
      modifies Repr - {this}
      ensures Valid() && Lower() == old(Lower()) && Held() >= old(Held())
      ensures found && base != null ==> txid in Held()
      ensures !found ==> txid !in Below()
      ensures found ==> Clean(c) && if c.IsPruned() then txid !in Below() else txid in Below() && Below()[txid] == c
      decreases Repr, 0
    {
      if base == null {
        found, c := db.GetCoins(txid);
      } else {
        found, c := base.GetCoins(txid);
        assert Below() == old(Below());
        HeldGrows(cacheCoins, Below(), old(Held()), Held(), false);
      }
    }

    /** Reading fills the caches on the way down but changes nothing that can be seen. */
    method FetchCoins(txid: TxId) returns (found: bool)
      requires Valid()
      modifies Repr
      ensures Valid() && hasModifier == old(hasModifier)
      ensures Visible() == old(Visible()) && Lower() == old(Lower())
      ensures cacheCoins.Keys >= old(cacheCoins.Keys)
      ensures found == (txid in cacheCoins)
      ensures !found ==> txid !in Visible()
      decreases Repr, 1
    {
      hide Overlay, EntryOk;
      if txid in cacheCoins { return true; }
      var have, tmp := GetFromBase(txid);
      if !have {
        UncachedIsBelow(cacheCoins, Below(), txid);
        return false;
      }
      InsertFetched(cacheCoins, Below(), Held(), base == null, txid, tmp, false, tmp.IsPruned());
      cacheCoins := cacheCoins[txid := CacheEntry(tmp, false, tmp.IsPruned())];
      return true;
    }

    method GetCoins(txid: TxId) returns (found: bool, c: Coins)
      requires Valid()
      modifies Repr
      ensures Valid() && hasModifier == old(hasModifier)
      ensures Visible() == old(Visible()) && Lower() == old(Lower())
      ensures cacheCoins.Keys >= old(cacheCoins.Keys)
      ensures found == (txid in cacheCoins)
      ensures !found ==> txid !in Visible()
      ensures found ==> Clean(c) && if c.IsPruned() then txid !in Visible() else txid in Visible() && Visible()[txid] == c
      decreases Repr, 2
    {
      found := FetchCoins(txid);
      c := NO_COINS;
      if found {
        c := cacheCoins[txid].coins;
        CachedIsVisible(cacheCoins, Below(), Held(), base == null, txid);
      }
    }

    /** The test on the empty vector is exact, because cached records are always cleaned up. */
    method HaveCoins(txid: TxId) returns (have: bool)
      requires Valid()
      modifies Repr
      ensures Valid() && hasModifier == old(hasModifier)
      ensures Visible() == old(Visible()) && Lower() == old(Lower())
      ensures have == (txid in Visible())
    {
      var found := FetchCoins(txid);
      if !found { return false; }
      CachedIsVisible(cacheCoins, Below(), Held(), base == null, txid);
      return cacheCoins[txid].coins.vout != [];
    }

    /** Makes sure that the cache has an entry, a blank one if there is no record. */
    method EnsureCached(txid: TxId)
      requires Valid() && !hasModifier
      modifies Repr
      ensures Valid() && !hasModifier && Visible() == old(Visible()) && Lower() == old(Lower())
      ensures txid in cacheCoins
    {
      hide Overlay, EntryOk;
      if txid !in cacheCoins {
        var have, tmp := GetFromBase(txid);
        if !have { tmp := NO_COINS; }
        InsertFetched(cacheCoins, Below(), Held(), base == null, txid, tmp, false, tmp.IsPruned());
        cacheCoins := cacheCoins[txid := CacheEntry(tmp, false, tmp.IsPruned())];
      }
    }

    /** Whenever a modifier is opened, the entry is taken to be modified. */
    method MarkModified(txid: TxId)
      requires Valid() && !hasModifier && txid in cacheCoins
      modifies this
      ensures Valid() && hasModifier && Visible() == old(Visible()) && Lower() == old(Lower())
      ensures cacheCoins == old(cacheCoins)[txid := old(cacheCoins)[txid].(dirty := true)]
    {
      hide Overlay, EntryOk, LevelOk;
      MarkDirty(cacheCoins, Below(), Held(), base == null, txid);
      cacheCoins := cacheCoins[txid := cacheCoins[txid].(dirty := true)];
      hasModifier := true;
    }

    /** Open a modifier: hands out the record to change. */
    method ModifyCoins(txid: TxId) returns (c: Coins)
      requires Valid() && !hasModifier
      modifies Repr
      ensures Valid() && hasModifier && Visible() == old(Visible()) && Lower() == old(Lower())
      ensures txid in cacheCoins && cacheCoins[txid].dirty
      ensures c.Same(Lookup(Visible(), txid)) && Clean(c)
    {
      hide Overlay, EntryOk, LevelOk;
      EnsureCached(txid);
      MarkModified(txid);
      c := cacheCoins[txid].coins;
      CachedIsVisible(cacheCoins, Below(), Held(), base == null, txid);
    }

    /** Close a modifier whose record has become `c`. */
    method Release(txid: TxId, c: Coins)
      requires Valid() && hasModifier && txid in cacheCoins && cacheCoins[txid].dirty
      modifies this
      ensures Valid() && !hasModifier && Lower() == old(Lower())
      ensures Visible() == Put(old(Visible()), txid, Cleanup(c))
    {
      hide Overlay, EntryOk, Put, Released, Coins.IsPruned;
      var tidied := Cleanup(c);
      ReleasedRefines(cacheCoins, Below(), Held(), base == null, txid, tidied);
      cacheCoins := Released(cacheCoins, txid, tidied);
      hasModifier := false;
    }

    /** Take over the entries of the cache above. */
    method BatchWrite(mapCoins: CoinsMap)
      requires Valid() && !hasModifier
      requires LevelOk(mapCoins, Visible(), cacheCoins.Keys, false)
      modifies this
      ensures Valid() && !hasModifier && Lower() == old(Lower())
      ensures Visible() == Overlay(mapCoins, old(Visible()))
    {
      hide Overlay, EntryOk, WriteEntry, WriteToDb;
      var rest := mapCoins;
      while rest != map[]
        invariant Valid() && !hasModifier && Lower() == old(Lower())
        invariant LevelOk(rest, Visible(), cacheCoins.Keys, false)
        invariant Overlay(rest, Visible()) == Overlay(mapCoins, old(Visible()))
        decreases |rest|
      {
        var id :| id in rest;
        var e := rest[id];
        WriteEntryRefines(rest, cacheCoins, Below(), Held(), base == null, id);
        if e.dirty && id !in cacheCoins && !e.coins.IsPruned() {
          assert e.isFresh;   // the assertion of the source
        }
        cacheCoins := WriteEntry(cacheCoins, id, e);
        rest := rest - {id};
      }
      OverlayEmpty(Visible());
    }

    /** Push everything down: the cache is empty afterwards and nothing visible has changed. */
    method Flush()
      requires Valid() && !hasModifier
      modifies Repr
      ensures Valid() && !hasModifier && cacheCoins == map[]
      ensures Visible() == old(Visible())
      ensures Lower() == [old(Visible())] + old(Lower())[1..]
    {
      hide EntryOk, Overlay;
      if base == null {
        db.BatchWrite(cacheCoins, Held());
      } else {
        base.BatchWrite(cacheCoins);
      }
      cacheCoins := map[];
      OverlayEmpty(Below());
      assert UnspentOnly(Below()) by { if base != null { VisibleUnspent(base); } }
    }
  }
}
