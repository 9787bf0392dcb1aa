/** CachingService: typed get/set/remove over a distributed string cache.
    The cache's contents are the field `entries`; `online` says whether the
    cache can be reached. Serialisation is taken as the identity, so an entry
    holds either the (JSON form of the) value, an empty string, or text that
    does not deserialise. Every failure is caught and logged, never raised. */
module Caching {
  import opened Wrappers
  import opened Entities

  datatype Payload = Json(value: ToDo) | EmptyText | Garbled

  /** A cache entry with its absolute expiration instant (seconds). */
  datatype Entry = Entry(payload: Payload, expiresAt: int)

  /** TimeSpan.FromHours(1), in seconds: the default expiration. */
  const OneHour: int := 3600

  /** An entry is served until its absolute expiration. */
  predicate Live(e: Entry, now: int)
  {
    now < e.expiresAt
  }

  /** GetAsync<ToDo>(key): the cached value, or default (null, here None) for a
      missing, expired or empty entry, for text that does not deserialise, and
      for any transport failure. */
  function Read(entries: map<string, Entry>, key: string, now: int, online: bool): (r: Option<ToDo>)
    ensures r.Some? <==> online && key in entries && Live(entries[key], now) && entries[key].payload.Json?
    ensures r.Some? ==> r.value == entries[key].payload.value
  {
    if !online || key !in entries || !Live(entries[key], now) then None
    else match entries[key].payload
      case Json(v) => Some(v)
      case EmptyText => None
      case Garbled => None
  }

  /** The relative expiration SetAsync asks for: the given one, or one hour. */
  function Expiration(expiration: Option<int>): int
  {
    match expiration
    case Some(t) => t
    case None => OneHour
  }

  /** The entries after SetAsync(key, value, expiration) at instant `now`. A
      relative expiration that is not positive makes SetAbsoluteExpiration
      throw, and a transport failure makes the write fail; both are swallowed
      and leave the cache as it was. */
  function Written(entries: map<string, Entry>, key: string, value: ToDo, expiration: Option<int>,
                   now: int, online: bool): (r: map<string, Entry>)
    ensures forall k :: k != key ==> (k in r <==> k in entries)
    ensures forall k :: k != key && k in r ==> r[k] == entries[k]
  {
    if online && Expiration(expiration) > 0
    then entries[key := Entry(Json(value), now + Expiration(expiration))]
    else entries
  }

  /** The entries after RemoveAsync(key); a failure is swallowed. */
  function Removed(entries: map<string, Entry>, key: string, online: bool): (r: map<string, Entry>)
    ensures forall k :: k != key ==> (k in r <==> k in entries)
    ensures forall k :: k != key && k in r ==> r[k] == entries[k]
    ensures online ==> key !in r
  {
    if online then entries - {key} else entries
  }

  /** A value set with a positive expiration is read back unchanged until it expires. */
  lemma SetThenGet(entries: map<string, Entry>, key: string, value: ToDo, expiration: Option<int>,
                   now: int, later: int)
    requires Expiration(expiration) > 0
    requires now <= later < now + Expiration(expiration)
    ensures Read(Written(entries, key, value, expiration, now, true), key, later, true) == Some(value)
  {
  }

  /** Without an explicit expiration a value stays readable for exactly one hour. */
  lemma DefaultExpiresAfterOneHour(entries: map<string, Entry>, key: string, value: ToDo, now: int, later: int)
    ensures Read(Written(entries, key, value, None, now, true), key, later, true) ==
      if later < now + OneHour then Some(value) else None
  {
  }

  /** Setting or removing one key leaves what every other key reads. */
  lemma OtherKeysUntouched(entries: map<string, Entry>, key: string, other: string, value: ToDo,
                           expiration: Option<int>, now: int, later: int, online: bool, readOnline: bool)
    requires other != key
    ensures Read(Written(entries, key, value, expiration, now, online), other, later, readOnline) ==
      Read(entries, other, later, readOnline)
    ensures Read(Removed(entries, key, online), other, later, readOnline) == Read(entries, other, later, readOnline)
  {
  }

  class CachingService {
    /** The distributed cache's contents. */
    var entries: map<string, Entry>
    /** Whether calls to the distributed cache succeed. */
    var online: bool

    constructor (initial: map<string, Entry>, reachable: bool)
      ensures entries == initial && online == reachable
    {
      entries := initial;
      online := reachable;
    }

    method GetAsync(key: string, now: int) returns (r: Option<ToDo>)
      ensures r == Read(entries, key, now, online)
      ensures !online ==> r == None
      ensures key !in entries ==> r == None
    {
      if !online || key !in entries || !Live(entries[key], now) {
        r := None;
      } else {
        match entries[key].payload {
          case Json(v) => r := Some(v);
          case EmptyText => r := None;
          case Garbled => r := None;
        }
      }
    }

    method SetAsync(key: string, value: ToDo, expiration: Option<int>, now: int)
      modifies this
      ensures online == old(online)
      ensures entries == Written(old(entries), key, value, expiration, now, online)
      ensures online && Expiration(expiration) > 0 ==> Read(entries, key, now, true) == Some(value)
    {
      var ttl := if expiration.Some? then expiration.value else OneHour;
      if online && ttl > 0 {
        entries := entries[key := Entry(Json(value), now + ttl)];
      }
    }

    method RemoveAsync(key: string)
      modifies this
      ensures online == old(online)
      ensures entries == Removed(old(entries), key, online)
      ensures online ==> key !in entries
    {
      if online {
        entries := entries - {key};
      }
    }

    /** RemoveByPatternAsync only logs that it is not implemented. */
    method RemoveByPatternAsync(pattern: string)
      ensures unchanged(this)
    {
    }
  }
}
