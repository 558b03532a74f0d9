/**
 * The session (src/Ignite/Http/Session.php): attributes, flash messages
 * and a locale kept in a storage under the key `_fuse`. Flash messages
 * loaded at start are marked old and dropped at the next save, so a flash
 * lives for one request after the one that set it.
 *
 * The storage (an implementation of SessionStorageInterface) is an
 * in-memory map. Attribute and flash values are strings.
 */
module Sessions {
  import opened Wrappers
  import opened OrderedMaps

  type Bag = OrderedMap<string>

  const FuseKey := "_fuse"

  /** What the session writes under `_fuse`: `attributes` (absent in data not written by a session), `flashes`, `locale`. */
  datatype Stored = Stored(attributes: Option<Bag>, flashes: Bag, locale: string)

  /** The session's fields apart from the storage and the default locale. */
  datatype SessionState = SessionState(
    attributes: Bag,
    flashes: Bag,
    oldFlashes: Bag,
    locale: string,
    started: bool,
    closed: bool)

  /** The result of start, given what the storage holds under `_fuse`. */
  function Started(s: SessionState, read: Option<Stored>): (r: SessionState)
    ensures r.started && r.closed == s.closed
    ensures s.started ==> r == s
  {
    if s.started then s
    else match read
      case Some(Stored(Some(attributes), flashes, locale)) =>
        s.(attributes := attributes, flashes := flashes, locale := locale, oldFlashes := flashes, started := true)
      case _ => s.(started := true)
  }

  /** The state after save's array_diff_key. */
  function Pruned(s: SessionState): SessionState {
    s.(flashes := Without(s.flashes, Keys(s.oldFlashes)))
  }

  /** The data save writes. */
  function Written(s: SessionState): Stored {
    Stored(Some(s.attributes), s.flashes, s.locale)
  }

  function Read(slots: map<string, Stored>): Option<Stored> {
    if FuseKey in slots then Some(slots[FuseKey]) else None
  }

  /** The in-memory session storage. */
  class Storage {
    var started: bool
    var slots: map<string, Stored>

    constructor(slots: map<string, Stored>)
      ensures !started && this.slots == slots
    {
      started := false;
      this.slots := slots;
    }

    method Start()
      modifies this`started
      ensures started
    {
      started := true;
    }

    method Read(key: string) returns (r: Option<Stored>)
      ensures key in slots ==> r == Some(slots[key])
      ensures key !in slots ==> r.None?
    {
      r := if key in slots then Some(slots[key]) else None;
    }

    method Write(key: string, data: Stored)
      modifies this`slots
      ensures slots == old(slots)[key := data]
    {
      slots := slots[key := data];
    }
  }

  class Session {
    var storage: Storage
    var attributes: Bag
    var flashes: Bag
    var oldFlashes: Bag
    var locale: string
    var defaultLocale: string
    var started: bool
    var closed: bool

    ghost function State(): SessionState
      reads this
    {
      SessionState(attributes, flashes, oldFlashes, locale, started, closed)
    }

    constructor(storage: Storage, defaultLocale: string)
      ensures this.storage == storage && this.defaultLocale == defaultLocale
      ensures State() == SessionState([], [], [], defaultLocale, false, false)
    {
      this.storage := storage;
      this.defaultLocale := defaultLocale;
      locale := defaultLocale;
      flashes := [];
      oldFlashes := [];
      attributes := [];
      started := false;
      closed := false;
    }

    /** start: once per session, loads what the storage holds when it holds attributes. */
    method Start()
      modifies this`attributes, this`flashes, this`oldFlashes, this`locale, this`started, storage`started
      ensures State() == Started(old(State()), Read(storage.slots))
      ensures storage.started == (old(storage.started) || !old(started))
    {
      if started {
        return;
      }
      storage.Start();
      var data := storage.Read(FuseKey);
      if data.Some? && data.value.attributes.Some? {
        attributes := data.value.attributes.value;
        flashes := data.value.flashes;
        locale := data.value.locale;
        oldFlashes := flashes;
      }
      started := true;
    }

    /** save: starts if needed, drops the old flashes and writes attributes, flashes and locale. */
    method Save()
      modifies this`attributes, this`flashes, this`oldFlashes, this`locale, this`started, storage
      ensures State() == Pruned(Started(old(State()), Read(old(storage.slots))))
      ensures storage.slots == old(storage.slots)[FuseKey := Written(State())]
      ensures storage.started == (old(storage.started) || !old(started))
    {
      if !started {
        Start();
      }
      flashes := Without(flashes, Keys(oldFlashes));
      storage.Write(FuseKey, Stored(Some(attributes), flashes, locale));
    }

    method Close()
      modifies this`closed
      ensures closed
    {
      closed := true;
    }

    /** serialize: what survives serialisation, the storage and the default locale. */
    method Serialize() returns (storage: Storage, defaultLocale: string)
      ensures storage == this.storage && defaultLocale == this.defaultLocale
    {
      storage := this.storage;
      defaultLocale := this.defaultLocale;
    }

    /** unserialize: the storage and default locale back, the attributes emptied, not started. */
    method Unserialize(storage: Storage, defaultLocale: string)
      modifies this`storage, this`defaultLocale, this`attributes, this`started
      ensures this.storage == storage && this.defaultLocale == defaultLocale
      ensures State() == old(State()).(attributes := [], started := false)
    {
      this.storage := storage;
      this.defaultLocale := defaultLocale;
      attributes := [];
      started := false;
    }
  }

  /** Starting a started session changes nothing, whatever the storage holds. */
  lemma StartIdempotent(s: SessionState, read: Option<Stored>, again: Option<Stored>)
    ensures Started(Started(s, read), again) == Started(s, read)
  {
  }

  /** Data with attributes is loaded, its flashes marked old; other data leaves the fields as they were. */
  lemma StartLoads(s: SessionState, read: Option<Stored>)
    requires !s.started
    ensures var r := Started(s, read);
      if read.Some? && read.value.attributes.Some? then
        && r.attributes == read.value.attributes.value
        && r.flashes == read.value.flashes
        && r.oldFlashes == r.flashes
        && r.locale == read.value.locale
      else r == s.(started := true)
  {
  }

  /** save keeps exactly the flashes not marked old, with their values. */
  lemma SaveKeepsNewFlashes(s: SessionState, k: string)
    ensures k in Keys(Pruned(s).flashes) <==> k in Keys(s.flashes) && k !in Keys(s.oldFlashes)
    ensures forall i :: 0 <= i < |Pruned(s).flashes| ==> Pruned(s).flashes[i] in s.flashes
  {
    WithoutKeys(s.flashes, Keys(s.oldFlashes));
  }

  /** Flashes loaded by a fresh session are all gone after its save. */
  lemma LoadedFlashesExpire(s: SessionState, data: Stored)
    requires !s.started && data.attributes.Some?
    ensures Pruned(Started(s, Some(data))).flashes == []
  {
    WithoutEverything(data.flashes, Keys(data.flashes));
  }

  lemma {:induction false} WithoutEverything(m: Bag, ks: seq<string>)
    requires forall i :: 0 <= i < |m| ==> m[i].0 in ks
    decreases |m|
    ensures Without(m, ks) == []
  {
    if |m| > 0 {
      WithoutEverything(m[..|m| - 1], ks);
    }
  }

  /** What one session saves, the next session on that storage starts with. */
  lemma SaveThenStart(saved: SessionState, next: SessionState)
    requires !next.started
    ensures var r := Started(next, Some(Written(saved)));
      r.attributes == saved.attributes && r.flashes == saved.flashes
      && r.oldFlashes == saved.flashes && r.locale == saved.locale
  {
  }
}
