/**
 * Conversions between the persisted cookie record (`MaSync.Cookie`) and the
 * HTTP stack's cookie (`System.Net.Cookie`), and between a persisted
 * dictionary and a cookie container.
 */
module CookieMapper {
  import opened Wrappers
  import EnumerableExtensions

  /** `MaSync.Cookie`: the record that is saved to and loaded from disk. `Expires` is in ticks. */
  datatype Cookie = Cookie(
    Name: Option<string>,
    Value: Option<string>,
    Domain: Option<string>,
    Path: Option<string>,
    HttpOnly: bool,
    IsSecure: bool,
    Expires: int)

  /** `System.Net.Cookie`, treated as a plain record. Its `Name` is never null. */
  datatype NetCookie = NetCookie(
    Name: string,
    Value: Option<string>,
    Domain: Option<string>,
    Path: Option<string>,
    HttpOnly: bool,
    Secure: bool,
    Expires: int)

  /** A `CookieContainer`: the cookies it holds, in enumeration order. */
  type CookieContainer = seq<NetCookie>

  /** The persisted dictionary, keyed by cookie name. */
  type CookieDictionary = map<string, Cookie>

  function MapSystemCookie(c: Cookie): NetCookie
  {
    NetCookie(c.Name.GetOr(""), c.Value, c.Domain, c.Path, c.HttpOnly, c.IsSecure, c.Expires)
  }

  function MapModel(c: NetCookie): Cookie
  {
    Cookie(Some(c.Name), c.Value, c.Domain, c.Path, c.HttpOnly, c.Secure, c.Expires)
  }

  /**
   * Model -> system -> model restores every field when the name is present.
   * A null name comes back as "" here; the real `Name` setter rejects it.
   */
  lemma ModelRoundTrip(c: Cookie)
    ensures c.Name.Some? ==> MapModel(MapSystemCookie(c)) == c
    ensures c.Name.None? ==> MapModel(MapSystemCookie(c)) == c.(Name := Some(""))
  {
  }

  /** System -> model -> system is the identity: all seven fields are copied, `Secure` via `IsSecure`. */
  lemma SystemRoundTrip(c: NetCookie)
    ensures MapSystemCookie(MapModel(c)) == c
  {
  }

  /** `order` lists every key of `keys` exactly once. */
  ghost predicate Enumerates(order: seq<string>, keys: set<string>)
  {
    && (forall i, j :: 0 <= i < j < |order| ==> order[i] != order[j])
    && (forall i :: 0 <= i < |order| ==> order[i] in keys)
    && (forall k :: k in keys ==> k in order)
  }

  /** `container` holds the mapped values of `d`, one per key, in the order `order`. */
  ghost predicate HoldsInOrder(container: CookieContainer, d: CookieDictionary, order: seq<string>)
  {
    && Enumerates(order, d.Keys)
    && |container| == |order|
    && forall i :: 0 <= i < |order| ==> container[i] == MapSystemCookie(d[order[i]])
  }

  /** `container` holds the mapped values of `d`, one per key, in some enumeration order of the dictionary. */
  ghost predicate ContainerOf(container: CookieContainer, d: CookieDictionary)
  {
    exists order :: HoldsInOrder(container, d, order)
  }

  /**
   * A null dictionary gives an empty container; otherwise every value is
   * mapped and added, and the keys are ignored. The dictionary's enumeration
   * order is not specified, so it is returned as the ghost `order`.
   */
  method MapCookieContainer(cookies: Option<CookieDictionary>)
    returns (container: CookieContainer, ghost order: seq<string>)
    ensures cookies.None? ==> container == []
    ensures cookies.Some? ==> HoldsInOrder(container, cookies.value, order)
  {
    container, order := [], [];
    if cookies.None? {
      return;
    }
    var d := cookies.value;
    var remaining := d.Keys;
    while remaining != {}
      invariant remaining <= d.Keys
      invariant forall i, j :: 0 <= i < j < |order| ==> order[i] != order[j]
      invariant forall i :: 0 <= i < |order| ==> order[i] in d.Keys && order[i] !in remaining
      invariant forall k :: k in d.Keys && k !in remaining ==> k in order
      invariant |container| == |order|
      invariant forall i :: 0 <= i < |order| ==> container[i] == MapSystemCookie(d[order[i]])
      decreases remaining
    {
      var k :| k in remaining;
      container := container + [MapSystemCookie(d[k])];
      order := order + [k];
      remaining := remaining - {k};
    }
  }

  /** The key `MapModel(CookieContainer)` files a cookie under: its name, with null as "". */
  function KeyOf(c: Cookie): string { c.Name.GetOr("") }

  function Identity(c: Cookie): Cookie { c }

  /** The container's cookies, mapped to the persisted record, in enumeration order. */
  function MappedCookies(jar: CookieContainer): seq<Cookie>
  {
    seq(|jar|, i requires 0 <= i < |jar| => MapModel(jar[i]))
  }

  /** `MapModel(CookieContainer)`: every cookie of the container, keyed by name, last one wins. */
  function MapContainerModel(jar: CookieContainer): CookieDictionary
  {
    EnumerableExtensions.LastWins(MappedCookies(jar), KeyOf, Identity)
  }

  /** Every entry is filed under its own name. */
  ghost predicate KeyedByName(d: CookieDictionary)
  {
    forall k :: k in d ==> d[k].Name == Some(k)
  }

  /** The dictionary's keys are the names in the container. */
  lemma ContainerModelKeys(jar: CookieContainer)
    ensures MapContainerModel(jar).Keys == set i | 0 <= i < |jar| :: jar[i].Name
  {
    var items := MappedCookies(jar);
    EnumerableExtensions.LastWinsKeys(items, KeyOf, Identity);
    assert forall i :: 0 <= i < |jar| ==> KeyOf(items[i]) == jar[i].Name;
    assert EnumerableExtensions.KeysOf(items, KeyOf) == set i | 0 <= i < |jar| :: jar[i].Name by {
      forall k | k in EnumerableExtensions.KeysOf(items, KeyOf) ensures k in set i | 0 <= i < |jar| :: jar[i].Name {
        var i :| 0 <= i < |items| && KeyOf(items[i]) == k;
      }
    }
  }

  /** A cookie that no later cookie shares a name with is the entry under its name. */
  lemma ContainerModelLast(jar: CookieContainer, i: nat)
    requires i < |jar| && forall j :: i < j < |jar| ==> jar[j].Name != jar[i].Name
    ensures jar[i].Name in MapContainerModel(jar) && MapContainerModel(jar)[jar[i].Name] == MapModel(jar[i])
  {
    EnumerableExtensions.LastWinsValue(MappedCookies(jar), KeyOf, Identity, i);
  }

  /**
   * The dictionary has one entry per distinct cookie name in the container;
   * cookies that share a name (whatever their domain or path) collapse to
   * the last of them in enumeration order.
   */
  lemma {:induction false} MapContainerModelEntries(jar: CookieContainer)
    ensures MapContainerModel(jar).Keys == set i | 0 <= i < |jar| :: jar[i].Name
    ensures KeyedByName(MapContainerModel(jar))
    ensures forall i :: 0 <= i < |jar| && (forall j :: i < j < |jar| ==> jar[j].Name != jar[i].Name) ==>
              MapContainerModel(jar)[jar[i].Name] == MapModel(jar[i])
  {
    var d := MapContainerModel(jar);
    ContainerModelKeys(jar);
    forall i | 0 <= i < |jar| && (forall j :: i < j < |jar| ==> jar[j].Name != jar[i].Name)
      ensures d[jar[i].Name] == MapModel(jar[i])
    {
      ContainerModelLast(jar, i);
    }
    forall k | k in d ensures d[k].Name == Some(k) {
      var i :| 0 <= i < |jar| && jar[i].Name == k;
      var last := LastWithName(jar, k, i);
      ContainerModelLast(jar, last);
    }
  }

  /** The index of the last cookie named `k`, searching from a known occurrence `i`. */
  lemma {:induction false} LastWithName(jar: CookieContainer, k: string, i: nat) returns (last: nat)
    requires i < |jar| && jar[i].Name == k
    ensures i <= last < |jar| && jar[last].Name == k
    ensures forall j :: last < j < |jar| ==> jar[j].Name != k
    decreases |jar| - i
  {
    if j :| i < j < |jar| && jar[j].Name == k {
      last := LastWithName(jar, k, j);
    } else {
      last := i;
    }
  }

  /** A container built from a name-keyed dictionary holds each key's cookie under that name, once. */
  lemma DistinctNames(d: CookieDictionary, container: CookieContainer, order: seq<string>)
    requires KeyedByName(d)
    requires HoldsInOrder(container, d, order)
    ensures forall i :: 0 <= i < |container| ==> container[i].Name == order[i]
    ensures forall i, j :: 0 <= i < j < |container| ==> container[i].Name != container[j].Name
  {
    forall i | 0 <= i < |container| ensures container[i].Name == order[i] {
      assert d[order[i]].Name == Some(order[i]);
    }
  }

  /** The rebuilt container maps back to a dictionary with the same keys. */
  lemma KeysAgree(d: CookieDictionary, container: CookieContainer, order: seq<string>)
    requires KeyedByName(d)
    requires HoldsInOrder(container, d, order)
    ensures MapContainerModel(container).Keys == d.Keys
  {
    DistinctNames(d, container, order);
    ContainerModelKeys(container);
    forall k | k in MapContainerModel(container) ensures k in d {
      var i :| 0 <= i < |container| && container[i].Name == k;
      assert order[i] == k;
    }
    forall k | k in d ensures k in MapContainerModel(container) {
      var i :| 0 <= i < |order| && order[i] == k;
      assert container[i].Name == k;
    }
  }

  /** Each key's cookie comes back as it was stored. */
  lemma ValueAgrees(d: CookieDictionary, container: CookieContainer, order: seq<string>, k: string)
    requires KeyedByName(d)
    requires HoldsInOrder(container, d, order)
    requires k in d
    ensures k in MapContainerModel(container) && MapContainerModel(container)[k] == d[k]
  {
    DistinctNames(d, container, order);
    var i :| 0 <= i < |order| && order[i] == k;
    forall j | i < j < |container| ensures container[j].Name != container[i].Name {
      assert order[i] != order[j];
    }
    ContainerModelLast(container, i);
    ModelRoundTrip(d[k]);
  }

  /**
   * Saving `Cookies` and rebuilding the container from them is lossless: a
   * dictionary whose entries are keyed by their own name, expanded into a
   * container in any enumeration order and mapped back, is the same dictionary.
   */
  lemma RestoreAfterPersist(d: CookieDictionary, container: CookieContainer)
    requires KeyedByName(d)
    requires ContainerOf(container, d)
    ensures MapContainerModel(container) == d
  {
    var order :| HoldsInOrder(container, d, order);
    KeysAgree(d, container, order);
    forall k | k in d ensures MapContainerModel(container)[k] == d[k] {
      ValueAgrees(d, container, order, k);
    }
  }
}
