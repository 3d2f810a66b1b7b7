/**
 * The persistence adapter: a key-value store kept in IndexedDB (the primary store), and a
 * one-time migration that copies the saved state out of localStorage (the legacy store) when
 * the primary store has none.
 */
module Storage {
  import opened Wrappers

  /** The key the persisted application state is saved under. */
  const StorageKey: string := "memory-atlas-storage"

  /** Both stores: key to saved string. */
  datatype Stores = Stores(primary: map<string, string>, legacy: map<string, string>)

  /** Which of the storage operations fail on this call (each is a promise rejection or a throw). */
  datatype Faults = Faults(primaryRead: bool, legacyRead: bool, primaryWrite: bool,
                           legacyRemove: bool)

  const NoFaults := Faults(false, false, false, false)

  /** What a returned promise settles to: a value (`None` for `null`), or a rejection. */
  datatype Outcome = Resolved(value: Option<string>) | Rejected

  /** `v != null && v !== ''`. */
  predicate Present(v: Option<string>) {
    v.Some? && v.value != ""
  }

  /** `getItemFromIdb`: the row's value, or `null` when there is no row. */
  function Lookup(m: map<string, string>, key: string): (r: Option<string>)
    ensures r.Some? <==> key in m
    ensures r.Some? ==> r.value == m[key]
  {
    if key in m then Some(m[key]) else None
  }

  /** `migrateFromLocalStorage`: the value returned and the stores afterwards. */
  function Migrate(s: Stores, f: Faults): (Outcome, Stores) {
    if f.primaryRead then (Rejected, s)
    else
      var primaryValue := Lookup(s.primary, StorageKey);
      if Present(primaryValue) then (Resolved(primaryValue), s)
      else if f.legacyRead then (Resolved(primaryValue), s)
      else
        var local := Lookup(s.legacy, StorageKey);
        if !Present(local) then (Resolved(primaryValue), s)
        else if f.primaryWrite then (Rejected, s)
        else
          var copied := s.primary[StorageKey := local.value];
          if f.legacyRemove then (Resolved(local), Stores(copied, s.legacy))
          else (Resolved(local), Stores(copied, s.legacy - {StorageKey}))
  }

  /** A saved state in the primary store is returned and neither store changes. */
  lemma PrimaryWins(s: Stores, f: Faults)
    requires !f.primaryRead && Present(Lookup(s.primary, StorageKey))
    ensures Migrate(s, f) == (Resolved(Some(s.primary[StorageKey])), s)
  {
  }

  /**
   * With nothing saved in the primary store and a saved state in the legacy store, the state is
   * copied to the primary store, removed from the legacy store and returned.
   */
  lemma MigrationMovesState(s: Stores)
    requires !Present(Lookup(s.primary, StorageKey)) && Present(Lookup(s.legacy, StorageKey))
    ensures var (out, t) := Migrate(s, NoFaults);
      && out == Resolved(Some(s.legacy[StorageKey]))
      && t.primary == s.primary[StorageKey := s.legacy[StorageKey]]
      && StorageKey !in t.legacy
      && t.legacy == s.legacy - {StorageKey}
  {
  }

  /**
   * After a migration that returned a saved state, or one that met no fault, a second migration
   * (whatever it meets, short of a failed read of the primary store) returns the same value and
   * changes nothing.
   */
  lemma MigrateIdempotent(s: Stores, f: Faults, g: Faults)
    requires !g.primaryRead
    requires Migrate(s, f).0.Resolved?
    requires f == NoFaults || Present(Migrate(s, f).0.value)
    ensures Migrate(Migrate(s, f).1, g) == Migrate(s, f)
  {
  }

  /**
   * Nothing is lost: whatever the faults, a saved state that was in either store is afterwards in
   * the primary store or still in the legacy store, and a state returned is in the primary store.
   */
  lemma MigrateLosesNothing(s: Stores, f: Faults)
    ensures var (out, t) := Migrate(s, f);
      && (StorageKey in s.primary ==> StorageKey in t.primary)
      && (Present(Lookup(s.legacy, StorageKey)) ==>
            Lookup(t.primary, StorageKey) == Lookup(s.legacy, StorageKey)
            || Lookup(t.legacy, StorageKey) == Lookup(s.legacy, StorageKey)
            || Present(Lookup(s.primary, StorageKey)))
      && (out.Resolved? && Present(out.value) ==> Lookup(t.primary, StorageKey) == out.value)
  {
  }

  /** The migration touches no key but the state's. */
  lemma MigrateOnlyStateKey(s: Stores, f: Faults, key: string)
    requires key != StorageKey
    ensures var t := Migrate(s, f).1;
      Lookup(t.primary, key) == Lookup(s.primary, key) && Lookup(t.legacy, key) == Lookup(s.legacy, key)
  {
  }

  /** A failed copy rejects and leaves both stores as they were. */
  lemma FailedCopyChangesNothing(s: Stores, f: Faults)
    requires f.primaryWrite
    ensures Migrate(s, f).1 == s
  {
  }

  /**
   * With nothing to move, or a legacy read that throws, the primary store's value (`null` or
   * `''`) is returned and neither store changes.
   */
  lemma NothingToMigrate(s: Stores, f: Faults)
    requires !f.primaryRead && !Present(Lookup(s.primary, StorageKey))
    requires f.legacyRead || !Present(Lookup(s.legacy, StorageKey))
    ensures Migrate(s, f) == (Resolved(Lookup(s.primary, StorageKey)), s)
  {
  }

  /**
   * A legacy delete that throws is ignored: the copied state is returned and is in the primary
   * store, and the legacy copy stays.
   */
  lemma FailedRemoveIgnored(s: Stores, f: Faults)
    requires !f.primaryRead && !f.legacyRead && !f.primaryWrite && f.legacyRemove
    requires !Present(Lookup(s.primary, StorageKey)) && Present(Lookup(s.legacy, StorageKey))
    ensures Migrate(s, f) == (Resolved(Some(s.legacy[StorageKey])),
                              Stores(s.primary[StorageKey := s.legacy[StorageKey]], s.legacy))
  {
  }

  /** The stores as the application sees them through `idbStorage`. */
  class PersistStorage {
    var primary: map<string, string>
    var legacy: map<string, string>

    function Current(): Stores
      reads this
    {
      Stores(primary, legacy)
    }

    constructor(primary: map<string, string>, legacy: map<string, string>)
      ensures Current() == Stores(primary, legacy)
    {
      this.primary := primary;
      this.legacy := legacy;
    }

    /** `migrateFromLocalStorage`. */
    method MigrateFromLegacy(f: Faults) returns (out: Outcome)
      modifies this
      ensures (out, Current()) == Migrate(old(Current()), f)
    {
      if f.primaryRead {
        return Rejected;
      }
      var primaryValue := Lookup(primary, StorageKey);
      if Present(primaryValue) {
        return Resolved(primaryValue);
      }
      if f.legacyRead {
        return Resolved(primaryValue);
      }
      var local := Lookup(legacy, StorageKey);
      if !Present(local) {
        return Resolved(primaryValue);
      }
      if f.primaryWrite {
        return Rejected;
      }
      primary := primary[StorageKey := local.value];
      if !f.legacyRemove {
        legacy := legacy - {StorageKey};
      }
      return Resolved(local);
    }

    /** `idbStorage.getItem`: the state's key goes through the migration, others are read. */
    method GetItem(name: string, f: Faults) returns (out: Outcome)
      modifies this
      ensures name != StorageKey ==>
        unchanged(this) && out == (if f.primaryRead then Rejected else Resolved(Lookup(primary, name)))
      ensures name == StorageKey ==> (out, Current()) == Migrate(old(Current()), f)
    {
      if name != StorageKey {
        if f.primaryRead {
          return Rejected;
        }
        return Resolved(Lookup(primary, name));
      }
      out := MigrateFromLegacy(f);
    }

    /** `idbStorage.setItem`. */
    method SetItem(name: string, value: string, writeFails: bool) returns (ok: bool)
      modifies this
      ensures ok == !writeFails
      ensures legacy == old(legacy)
      ensures primary == if writeFails then old(primary) else old(primary)[name := value]
    {
      if writeFails {
        return false;
      }
      primary := primary[name := value];
      return true;
    }

    /** `idbStorage.removeItem`. */
    method RemoveItem(name: string, removeFails: bool) returns (ok: bool)
      modifies this
      ensures ok == !removeFails
      ensures legacy == old(legacy)
      ensures primary == if removeFails then old(primary) else old(primary) - {name}
    {
      if removeFails {
        return false;
      }
      primary := primary - {name};
      return true;
    }
  }

  /** After a successful write of a non-empty value, reading the key gives the value back. */
  lemma WriteThenRead(s: Stores, name: string, value: string, f: Faults)
    requires !f.primaryRead
    requires name != StorageKey || value != ""
    ensures var t := Stores(s.primary[name := value], s.legacy);
      name == StorageKey ==> Migrate(t, f) == (Resolved(Some(value)), t)
    ensures Lookup(s.primary[name := value], name) == Some(value)
  {
  }

  /**
   * An empty string saved under the state's key counts as nothing saved: a legacy state, if there
   * is one, is migrated over it.
   */
  lemma EmptyPrimaryIsReplaced(s: Stores)
    requires Lookup(s.primary, StorageKey) == Some("") && Present(Lookup(s.legacy, StorageKey))
    ensures Migrate(s, NoFaults).0 == Resolved(Lookup(s.legacy, StorageKey))
    ensures Migrate(s, NoFaults).1.primary[StorageKey] == s.legacy[StorageKey]
  {
  }
}
