/** FindRoute: the video route of an episode and a feature key. */
module VideoRoutes {
  import opened Collections
  import opened Routes

  datatype VideoRoute = VideoRoute(episode: int, key: nat, file: nat, from: real, to: real)

  predicate Before(a: VideoRoute, b: VideoRoute) {
    a.episode < b.episode || (a.episode == b.episode && a.key < b.key)
  }

  /** By episode, then by key; no route twice. */
  ghost predicate StrictlySorted(routes: seq<VideoRoute>) {
    forall i, j :: 0 <= i < j < |routes| ==> Before(routes[i], routes[j])
  }

  ghost predicate SortedKeys(keys: seq<string>) {
    forall i, j :: 0 <= i < j < |keys| ==> StringLess(keys[i], keys[j])
  }

  /** First key that is not below the wanted one. */
  method LowerBoundKey(keys: seq<string>, key: string) returns (r: nat)
    requires SortedKeys(keys)
    ensures r <= |keys|
    ensures forall i :: 0 <= i < r ==> StringLess(keys[i], key)
    ensures forall i :: r <= i < |keys| ==> !StringLess(keys[i], key)
  {
    r := 0;
    var end := |keys|;
    while r < end
      invariant r <= end <= |keys|
      invariant forall i :: 0 <= i < r ==> StringLess(keys[i], key)
      invariant forall i :: end <= i < |keys| ==> !StringLess(keys[i], key)
    {
      var mid := (r + end) / 2;
      if StringLess(keys[mid], key) {
        forall i | 0 <= i < mid ensures StringLess(keys[i], key) {
          StringLessTransitive(keys[i], keys[mid], key);
        }
        r := mid + 1;
      } else {
        forall i | mid < i < |keys| ensures !StringLess(keys[i], key) {
          if StringLess(keys[i], key) {
            StringLessTransitive(keys[mid], keys[i], key);
          }
        }
        end := mid;
      }
    }
  }

  /** Position of the key, or |keys|. */
  method FindKey(keys: seq<string>, key: string) returns (r: nat)
    requires SortedKeys(keys)
    ensures r < |keys| ==> keys[r] == key
    ensures r >= |keys| ==> key !in keys
  {
    r := LowerBoundKey(keys, key);
    if r < |keys| && keys[r] == key {
      return;
    }
    StringLessTotal(key, key);
    forall i | r < i < |keys| ensures keys[i] != key {
      assert StringLess(keys[r], keys[i]);
    }
    r := |keys|;
  }

  method LowerBoundEpisode(routes: seq<VideoRoute>, episode: int) returns (r: nat)
    requires StrictlySorted(routes)
    ensures r <= |routes|
    ensures forall i :: 0 <= i < r ==> routes[i].episode < episode
    ensures forall i :: r <= i < |routes| ==> routes[i].episode >= episode
  {
    r := 0;
    var end := |routes|;
    while r < end
      invariant r <= end <= |routes|
      invariant forall i :: 0 <= i < r ==> routes[i].episode < episode
      invariant forall i :: end <= i < |routes| ==> routes[i].episode >= episode
    {
      var mid := (r + end) / 2;
      if routes[mid].episode < episode {
        r := mid + 1;
      } else {
        end := mid;
      }
    }
  }

  ghost predicate IsRoute(route: VideoRoute, keys: seq<string>, episode: int, key: string) {
    route.episode == episode && route.key < |keys| && keys[route.key] == key
  }

  /** The route of the episode for the key; None exactly when there is none. */
  method FindRoute(routes: seq<VideoRoute>, keys: seq<string>, episode: int, key: string) returns (r: Option<VideoRoute>)
    requires StrictlySorted(routes) && SortedKeys(keys)
    ensures r.Some? ==> r.value in routes && IsRoute(r.value, keys, episode, key)
    ensures r.None? ==> forall i :: 0 <= i < |routes| ==> !IsRoute(routes[i], keys, episode, key)
  {
    var k := FindKey(keys, key);
    if k >= |keys| {
      return None;
    }
    KeyIsUnique(keys, k);
    var at := LowerBoundEpisode(routes, episode);
    while at < |routes| && routes[at].episode == episode
      invariant at <= |routes|
      invariant forall i :: 0 <= i < at ==> !IsRoute(routes[i], keys, episode, key)
      invariant forall i :: at <= i < |routes| ==> routes[i].episode >= episode
    {
      if routes[at].key == k {
        return Some(routes[at]);
      }
      if routes[at].key > k {
        forall i | at <= i < |routes| ensures !IsRoute(routes[i], keys, episode, key) {
          assert i > at ==> Before(routes[at], routes[i]);
        }
        break;
      }
      at := at + 1;
    }
    forall i | at <= i < |routes| ensures !IsRoute(routes[i], keys, episode, key) {
      assert i > at ==> Before(routes[at], routes[i]);
    }
    r := None;
  }

  lemma KeyIsUnique(keys: seq<string>, k: nat)
    requires SortedKeys(keys) && k < |keys|
    ensures forall i :: 0 <= i < |keys| && keys[i] == keys[k] ==> i == k
  {
    forall i | 0 <= i < |keys| && i != k ensures keys[i] != keys[k] {
      StringLessTotal(keys[k], keys[k]);
      assert if i < k then StringLess(keys[i], keys[k]) else StringLess(keys[k], keys[i]);
    }
  }
}
