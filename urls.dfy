/**
 * The record pages usparecordsscrape.py visits: the location, status and event
 * lists, the page URL for each combination in `itertools.product` order, and
 * the recovery of the three query values from a URL by substring splitting.
 */
module Urls {
  import opened Wrappers
  import opened Text

  const BaseUrl := "https://records.uspa.net/records.php"

  // The state list, one constant per line of its display in the script.
  const States1: seq<string> := ["alabama", "alaska", "arizona", "arkansas", "california", "colorado", "connecticut", "delaware", "florida"]
  const States2: seq<string> := ["georgia", "hawaii", "idaho", "illinois", "indiana", "iowa", "kansas", "kentucky", "louisiana", "maine"]
  const States3: seq<string> := ["maryland", "massachusetts", "michigan", "minnesota", "mississippi", "missouri", "montana", "nebraska"]
  const States4: seq<string> := ["nevada", "new-hampshire", "new-jersey", "new-mexico", "new-york", "north-carolina", "north-dakota", "ohio"]
  const States5: seq<string> := ["oklahoma", "oregon", "pennsylvania", "rhode-island", "south-carolina", "south-dakota", "tennessee", "texas"]
  const States6: seq<string> := ["utah", "vermont", "virginia", "washington", "west-virginia", "wisconsin", "wyoming"]

  const States: seq<string> := States1 + States2 + States3 + States4 + States5 + States6

  const SpecialLocations: seq<string> := ["national", "ipl-world"]

  const Locations: seq<string> := States + SpecialLocations

  const Statuses: seq<string> := ["drug-tested", "non-tested"]

  // The event list, one constant per line of its display in the script.
  const Events1: seq<string> := ["raw-powerlifting", "classic-powerlifting", "raw-bench-only", "raw-deadlift-only"]
  const Events2: seq<string> := ["single-ply-powerlifting", "single-ply-bench-only", "single-ply-deadlift-only"]
  const Events3: seq<string> := ["multi-ply-powerlifting", "multi-ply-bench-only", "multi-ply-deadlift-only"]

  const Events: seq<string> := Events1 + Events2 + Events3

  /** One record page: a (location, status, event) combination. */
  datatype Query = Query(location: string, status: string, event: string)

  // ---------------------------------------------------------------------------
  // Enumeration: itertools.product(locations, statuses, events)
  // ---------------------------------------------------------------------------

  /** The combinations for one location and one status, events innermost. */
  function EventRun(l: string, s: string, es: seq<string>): seq<Query>
    decreases |es|
  {
    if es == [] then [] else [Query(l, s, es[0])] + EventRun(l, s, es[1..])
  }

  /** The combinations for one location: statuses, then events. */
  function StatusRun(l: string, ss: seq<string>, es: seq<string>): seq<Query>
    decreases |ss|
  {
    if ss == [] then [] else EventRun(l, ss[0], es) + StatusRun(l, ss[1..], es)
  }

  /** `itertools.product(ls, ss, es)`: locations outermost, events innermost. */
  function Product(ls: seq<string>, ss: seq<string>, es: seq<string>): seq<Query>
    decreases |ls|
  {
    if ls == [] then [] else StatusRun(ls[0], ss, es) + Product(ls[1..], ss, es)
  }

  lemma {:induction false} EventRunLength(l: string, s: string, es: seq<string>)
    ensures |EventRun(l, s, es)| == |es|
    decreases |es|
  {
    if es != [] { EventRunLength(l, s, es[1..]); }
  }

  lemma {:induction false} StatusRunLength(l: string, ss: seq<string>, es: seq<string>)
    ensures |StatusRun(l, ss, es)| == |ss| * |es|
    decreases |ss|
  {
    if ss != [] {
      EventRunLength(l, ss[0], es);
      StatusRunLength(l, ss[1..], es);
      MulStep(|ss|, |es|);
    }
  }

  /** The product has one entry per combination: |ls| * |ss| * |es| of them. */
  lemma {:induction false} ProductLength(ls: seq<string>, ss: seq<string>, es: seq<string>)
    ensures |Product(ls, ss, es)| == |ls| * |ss| * |es|
    decreases |ls|
  {
    if ls != [] {
      StatusRunLength(ls[0], ss, es);
      ProductLength(ls[1..], ss, es);
      LengthStep(|ls|, |ss|, |es|);
    }
  }

  lemma {:induction false} EventRunAt(l: string, s: string, es: seq<string>, k: nat)
    requires k < |es|
    ensures k < |EventRun(l, s, es)|
    ensures EventRun(l, s, es)[k] == Query(l, s, es[k])
    decreases |es|
  {
    EventRunLength(l, s, es);
    if k > 0 {
      EventRunAt(l, s, es[1..], k - 1);
    }
  }

  lemma {:induction false} StatusRunAt(l: string, ss: seq<string>, es: seq<string>, j: nat, k: nat)
    requires j < |ss| && k < |es|
    ensures j * |es| + k < |StatusRun(l, ss, es)|
    ensures StatusRun(l, ss, es)[j * |es| + k] == Query(l, ss[j], es[k])
    decreases |ss|
  {
    var head, tail := EventRun(l, ss[0], es), StatusRun(l, ss[1..], es);
    assert StatusRun(l, ss, es) == head + tail;
    EventRunLength(l, ss[0], es);
    StatusRunLength(l, ss[1..], es);
    StatusRunLength(l, ss, es);
    IndexBound(j, |ss|, k, |es|);
    if j == 0 {
      EventRunAt(l, ss[0], es, k);
    } else {
      StatusRunAt(l, ss[1..], es, j - 1, k);
      ShiftIndex(j, |es|, k);
      ConcatAt(head, tail, j * |es| + k);
    }
  }

  /**
   * Entry n = (i*|ss| + j)*|es| + k of the product is (ls[i], ss[j], es[k]):
   * locations vary slowest and events fastest.
   */
  lemma {:induction false} ProductAt(ls: seq<string>, ss: seq<string>, es: seq<string>, i: nat, j: nat, k: nat, n: nat)
    requires i < |ls| && j < |ss| && k < |es|
    requires n == (i * |ss| + j) * |es| + k
    ensures n < |Product(ls, ss, es)|
    ensures Product(ls, ss, es)[n] == Query(ls[i], ss[j], es[k])
    decreases |ls|
  {
    var head, tail := StatusRun(ls[0], ss, es), Product(ls[1..], ss, es);
    assert Product(ls, ss, es) == head + tail;
    StatusRunLength(ls[0], ss, es);
    if i == 0 {
      FirstBlock(i, |ss|, j, |es|, k);
      StatusRunAt(ls[0], ss, es, j, k);
    } else {
      BlockShift(i, |ss|, j, |es|, k, n);
      ProductAt(ls[1..], ss, es, i - 1, j, k, n - |ss| * |es|);
    }
  }

  /** An index past the first part of a concatenation reads the second part. */
  lemma ConcatAt<T>(head: seq<T>, tail: seq<T>, n: nat)
    requires |head| <= n < |head| + |tail|
    ensures (head + tail)[n] == tail[n - |head|]
  {
  }

  /** Row `j` and column `k` of an a-by-b grid, flattened row by row, lie inside it. */
  lemma IndexBound(j: nat, a: nat, k: nat, b: nat)
    requires j < a && k < b
    ensures j * b + k < a * b
  {
    assert (j + 1) * b <= a * b;
  }

  /** a * b == b + (a - 1) * b for a >= 1. */
  lemma MulStep(a: nat, b: nat)
    requires a >= 1
    ensures a * b == b + (a - 1) * b
    ensures (a - 1) * b >= 0
  {
  }

  /** Moving one step down in the middle index shifts the flat index by a run of |es|. */
  lemma ShiftIndex(j: nat, e: nat, k: nat)
    requires j >= 1
    ensures j * e + k == e + ((j - 1) * e + k)
  {
  }

  /** A product over n locations is one location's block plus a product over n - 1. */
  lemma LengthStep(n: nat, sz: nat, e: nat)
    requires n >= 1
    ensures n * sz * e == sz * e + (n - 1) * sz * e
    ensures (n - 1) * sz * e >= 0 && sz * e >= 0
  {
    assert n * sz == sz + (n - 1) * sz;
  }

  /** With the outer index at 0 the flat index lies in the first block. */
  lemma FirstBlock(i: nat, sz: nat, j: nat, e: nat, k: nat)
    requires i == 0
    ensures (i * sz + j) * e + k == j * e + k
  {
  }

  /** Moving one step down in the outer index shifts the flat index by a block of sz * e. */
  lemma BlockShift(i: nat, sz: nat, j: nat, e: nat, k: nat, n: nat)
    requires i >= 1 && n == (i * sz + j) * e + k
    ensures n >= sz * e && n - sz * e == ((i - 1) * sz + j) * e + k
  {
    assert i * sz + j == sz + ((i - 1) * sz + j);
  }

  // ---------------------------------------------------------------------------
  // Page URLs
  // ---------------------------------------------------------------------------

  /** The f-string `f"{base_url}?location={location}&status={status}&event={event}"` on any base. */
  function UrlOn(base: string, q: Query): string {
    base + "?location=" + q.location + "&status=" + q.status + "&event=" + q.event
  }

  /** The page URL of a query on the records site. */
  function Url(q: Query): string {
    UrlOn(BaseUrl, q)
  }

  /** The list `urls`: one page URL per combination, in product order. */
  function PageUrls(): seq<string> {
    var p := Product(Locations, Statuses, Events);
    seq(|p|, n requires 0 <= n < |p| => Url(p[n]))
  }

  /**
   * 52 locations, 2 statuses and 10 events give 1040 URLs, and URL number
   * (i*2 + j)*10 + k is the page of (Locations[i], Statuses[j], Events[k]).
   */
  lemma PageUrlsAt(i: nat, j: nat, k: nat)
    requires i < |Locations| && j < |Statuses| && k < |Events|
    ensures |Locations| == 52 && |Statuses| == 2 && |Events| == 10
    ensures |PageUrls()| == 1040 && (i * 2 + j) * 10 + k < 1040
    ensures PageUrls()[(i * 2 + j) * 10 + k] == Url(Query(Locations[i], Statuses[j], Events[k]))
  {
    assert |States| == 50;
    ProductLength(Locations, Statuses, Events);
    ProductAt(Locations, Statuses, Events, i, j, k, (i * 2 + j) * 10 + k);
  }

  // ---------------------------------------------------------------------------
  // Parameter extraction
  // ---------------------------------------------------------------------------

  /**
   * `url.split(key)[1].split("&")[0]`: the text after the first `key`, up to
   * the next `key` or `&`. None is the IndexError raised when `key` is absent.
   */
  function ParamValue(url: string, key: string): (r: Option<string>)
    requires |key| > 0
    ensures r.Some? <==> Contains(url, key)
  {
    var parts := Split(url, key);
    if |parts| < 2 then None else Some(Split(parts[1], "&")[0])
  }

  /**
   * `location_value`, `status_value` and `event_value` of a page URL. A
   * missing `location=` or `status=` raises an IndexError (None here), which
   * the inner exception handler catches; a missing `event=` gives "".
   */
  function ExtractParams(url: string): (r: Option<Query>)
    ensures r.Some? <==> Contains(url, "location=") && Contains(url, "status=")
    ensures r.Some? && !Contains(url, "event=") ==> r.value.event == ""
    ensures r.Some? && Contains(url, "event=") ==> Some(r.value.event) == ParamValue(url, "event=")
  {
    var location := ParamValue(url, "location=");
    var status := ParamValue(url, "status=");
    if location.None? || status.None? then None
    else
      var event := if Contains(url, "event=") then ParamValue(url, "event=").value else "";
      Some(Query(location.value, status.value, event))
  }

  /** The text after the last `=` of a URL: `url.split('=')[-1]`. */
  function LastSegment(url: string): string {
    var parts := Split(url, "=");
    parts[|parts| - 1]
  }

  /** The screenshot name `f"debug_{url.split('=')[-1]}.png"` written when a page fails. */
  function DebugScreenshotName(url: string): string {
    "debug_" + LastSegment(url) + ".png"
  }

  // ---------------------------------------------------------------------------
  // Round trip
  // ---------------------------------------------------------------------------

  /** A query value that the URL syntax cannot confuse with a separator. */
  predicate Clean(v: string) {
    '=' !in v && '&' !in v
  }

  predicate CleanQuery(q: Query) {
    Clean(q.location) && Clean(q.status) && Clean(q.event)
  }

  predicate AllClean(vs: seq<string>) {
    forall k :: 0 <= k < |vs| ==> Clean(vs[k])
  }

  /** `A` ends with `w`. */
  predicate EndsWith(a: string, w: string) {
    |a| >= |w| && a[|a| - |w|..] == w
  }

  /** A key `w=` cannot occur in text that has no `=`. */
  lemma KeyAbsent(x: string, w: string)
    requires '=' !in x
    ensures !Contains(x, w + "=")
  {
    var key := w + "=";
    forall j | 0 <= j ensures !OccursAt(x, key, j) {
      if j + |key| <= |x| {
        assert x[j..j + |key|][|w|] == x[j + |w|];
      }
    }
    FindSpec(x, key);
  }

  /**
   * A key `w=` does not occur in `a + "=" + c` when it does not occur in `a`,
   * `a` does not end with `w`, and neither `w` nor `c` has an `=`: every
   * occurrence would have to end at the one `=` between them.
   */
  lemma KeyAbsentAround(a: string, c: string, w: string)
    requires !Contains(a, w + "=") && !EndsWith(a, w)
    requires '=' !in c && '=' !in w
    ensures !Contains(a + "=" + c, w + "=")
  {
    var key := w + "=";
    var s := a + "=" + c;
    FindSpec(a, key);
    forall j | 0 <= j && j + |key| <= |s| ensures !OccursAt(s, key, j) {
      var e := j + |w|;
      if e < |a| {
        assert s[j..j + |key|] == a[j..j + |key|];
        assert !OccursAt(a, key, j);
      } else if e == |a| {
        assert s[j..j + |key|][..|w|] == a[|a| - |w|..];
      } else {
        assert s[j..j + |key|][|w|] == c[e - |a| - 1];
      }
    }
    FindSpec(s, key);
  }

  /** When `x` has no `w=`, the first `w=` of `x + w= + y` is the one right after `x`. */
  lemma KeyFirstAfter(x: string, w: string, y: string)
    requires !Contains(x, w + "=") && '=' !in w
    ensures Find(x + (w + "=") + y, w + "=") == Some(|x|)
  {
    var key := w + "=";
    var s := x + key + y;
    FindSpec(x, key);
    forall j | 0 <= j < |x| ensures !OccursAt(s, key, j) {
      if j + |key| <= |x| {
        assert s[j..j + |key|] == x[j..j + |key|];
        assert !OccursAt(x, key, j);
      } else if j + |key| <= |s| {
        assert s[j..j + |key|][|w|] == w[j + |w| - |x|];
      }
    }
    assert s[|x|..|x| + |key|] == key;
    FindIs(s, key, |x|);
  }

  /**
   * Right after its key, a value free of `=` and `&`, followed by nothing or by
   * `&...`, runs up to the next key with only an `&...` tail beyond it: no key
   * starts inside the value or at the `&` that ends it.
   */
  lemma RestPiece(w: string, v: string, post: string) returns (t: string)
    requires '=' !in w && '&' !in w
    requires Clean(v)
    requires post == [] || post[0] == '&'
    ensures Split(v + post, w + "=")[0] == v + t
    ensures t == [] || t[0] == '&'
  {
    var key := w + "=";
    var r := v + post;
    forall j | 0 <= j <= |v| && j + |key| <= |r| ensures !OccursAt(r, key, j) {
      if j + |key| <= |v| {
        assert r[j..j + |key|][|w|] == v[j + |w|];
        assert key[|w|] == '=';
      } else {
        assert r[j..j + |key|][|v| - j] == post[0];
        assert key[|v| - j] != '&' by {
          if |v| - j < |w| { assert key[|v| - j] == w[|v| - j]; }
        }
      }
    }
    FindSpec(r, key);
    if Find(r, key).None? {
      t := post;
    } else {
      var k := Find(r, key).value;
      assert k > |v|;
      t := post[..k - |v|];
      assert r[..k] == v + t;
    }
  }

  /**
   * After the first `w=`, a value free of `=` and `&` followed by nothing or
   * by `&...` is exactly what `url.split(key)[1].split("&")[0]` recovers.
   */
  lemma ValueAfterKey(x: string, w: string, v: string, post: string)
    requires '=' !in w && '&' !in w && |w| > 0
    requires Find(x + (w + "=") + (v + post), w + "=") == Some(|x|)
    requires Clean(v)
    requires post == [] || post[0] == '&'
    ensures ParamValue(x + (w + "=") + (v + post), w + "=") == Some(v)
  {
    var key := w + "=";
    var s := x + key + (v + post);
    assert s[|x| + |key|..] == v + post;
    SplitAt(s, key, |x|);
    var t := RestPiece(w, v, post);
    SplitHead(v, '&', t);
  }

  /** `location_value` of a page URL built from clean values. */
  lemma LocationRoundTrip(base: string, q: Query)
    requires Clean(base) && CleanQuery(q)
    ensures ParamValue(UrlOn(base, q), "location=") == Some(q.location)
  {
    var post := "&status=" + q.status + "&event=" + q.event;
    var x := base + "?";
    assert "location" + "=" == "location=";
    assert UrlOn(base, q) == x + ("location" + "=") + (q.location + post);
    KeyAbsent(x, "location");
    KeyFirstAfter(x, "location", q.location + post);
    ValueAfterKey(x, "location", q.location, post);
  }

  /** `status_value` of a page URL built from clean values. */
  lemma StatusRoundTrip(base: string, q: Query)
    requires Clean(base) && CleanQuery(q)
    ensures ParamValue(UrlOn(base, q), "status=") == Some(q.status)
  {
    var post := "&event=" + q.event;
    var a := base + "?location";
    var x := a + "=" + (q.location + "&");
    assert "status" + "=" == "status=";
    assert UrlOn(base, q) == x + ("status" + "=") + (q.status + post);
    KeyAbsent(a, "status");
    assert a[|a| - 6..] == "cation";
    KeyAbsentAround(a, q.location + "&", "status");
    KeyFirstAfter(x, "status", q.status + post);
    ValueAfterKey(x, "status", q.status, post);
  }

  /** `event_value` of a page URL built from clean values. */
  lemma EventRoundTrip(base: string, q: Query)
    requires Clean(base) && CleanQuery(q)
    ensures Contains(UrlOn(base, q), "event=")
    ensures ParamValue(UrlOn(base, q), "event=") == Some(q.event)
  {
    var a1 := base + "?location";
    var a2 := a1 + "=" + (q.location + "&status");
    var x := a2 + "=" + (q.status + "&");
    assert "event" + "=" == "event=";
    assert UrlOn(base, q) == x + ("event" + "=") + (q.event + "");
    KeyAbsent(a1, "event");
    assert a1[|a1| - 5..] == "ation";
    KeyAbsentAround(a1, q.location + "&status", "event");
    assert a2[|a2| - 5..] == "tatus";
    KeyAbsentAround(a2, q.status + "&", "event");
    KeyFirstAfter(x, "event", q.event + "");
    ValueAfterKey(x, "event", q.event, "");
    assert q.event + "" == q.event;
  }

  /** The records site's address has no `=` or `&`. */
  lemma BaseUrlClean()
    ensures Clean(BaseUrl)
  {
  }

  /** Every page URL built from clean values gives back the values it was built from. */
  lemma UrlRoundTrip(q: Query)
    requires CleanQuery(q)
    ensures ExtractParams(Url(q)) == Some(q)
  {
    BaseUrlClean();
    LocationRoundTrip(BaseUrl, q);
    StatusRoundTrip(BaseUrl, q);
    EventRoundTrip(BaseUrl, q);
  }

  /** The text after the last `=` of a page URL is its event, whatever the base. */
  lemma LastSegmentOn(base: string, q: Query)
    requires Clean(q.event)
    ensures LastSegment(UrlOn(base, q)) == q.event
  {
    var u := UrlOn(base, q);
    var p := base + "?location=" + q.location + "&status=" + q.status + "&event=";
    assert u == p + q.event;
    assert p[|p| - 1] == '=';
    assert u[|u| - |q.event| - 1] == p[|p| - 1];
    assert u[|u| - |q.event|..] == q.event;
    SplitLast(u, '=', q.event);
  }

  /** The screenshot name of a page URL carries its event. */
  lemma DebugNameOfUrl(q: Query)
    requires CleanQuery(q)
    ensures LastSegment(Url(q)) == q.event
    ensures DebugScreenshotName(Url(q)) == "debug_" + q.event + ".png"
  {
    LastSegmentOn(BaseUrl, q);
  }

  lemma AppendClean(a: seq<string>, b: seq<string>)
    requires AllClean(a) && AllClean(b)
    ensures AllClean(a + b)
  {
    forall k | 0 <= k < |a + b| ensures Clean((a + b)[k]) {
      if k >= |a| {
        assert (a + b)[k] == b[k - |a|];
      }
    }
  }

  // The six lines of the state list, one lemma each.
  lemma States1Clean() ensures AllClean(States1) {}
  lemma States2Clean() ensures AllClean(States2) {}
  lemma States3Clean() ensures AllClean(States3) {}
  lemma States4Clean() ensures AllClean(States4) {}
  lemma States5Clean() ensures AllClean(States5) {}
  lemma States6Clean() ensures AllClean(States6) {}

  lemma StatesClean()
    ensures AllClean(States)
  {
    States1Clean(); States2Clean(); States3Clean();
    States4Clean(); States5Clean(); States6Clean();
    AppendClean(States1, States2);
    AppendClean(States1 + States2, States3);
    AppendClean(States1 + States2 + States3, States4);
    AppendClean(States1 + States2 + States3 + States4, States5);
    AppendClean(States1 + States2 + States3 + States4 + States5, States6);
  }

  lemma Events1Clean() ensures AllClean(Events1) {}
  lemma Events2Clean() ensures AllClean(Events2) {}
  lemma Events3Clean() ensures AllClean(Events3) {}

  lemma EventsClean()
    ensures AllClean(Events)
  {
    Events1Clean(); Events2Clean(); Events3Clean();
    AppendClean(Events1, Events2);
    AppendClean(Events1 + Events2, Events3);
  }

  lemma SpecialLocationsClean() ensures AllClean(SpecialLocations) {}
  lemma StatusesClean() ensures AllClean(Statuses) {}

  /** Every location, status and event of the script is clean. */
  lemma ListsClean()
    ensures AllClean(Locations) && AllClean(Statuses) && AllClean(Events)
  {
    StatesClean();
    SpecialLocationsClean();
    StatusesClean();
    AppendClean(States, SpecialLocations);
    EventsClean();
  }

  /**
   * Each of the 1040 page URLs yields the location, status and event it was
   * built from, and its screenshot name carries the event.
   */
  lemma PageUrlsRoundTrip(i: nat, j: nat, k: nat)
    requires i < |Locations| && j < |Statuses| && k < |Events|
    ensures |PageUrls()| == 1040 && (i * 2 + j) * 10 + k < 1040
    ensures ExtractParams(PageUrls()[(i * 2 + j) * 10 + k]) == Some(Query(Locations[i], Statuses[j], Events[k]))
    ensures LastSegment(PageUrls()[(i * 2 + j) * 10 + k]) == Events[k]
  {
    PageUrlsAt(i, j, k);
    ListsClean();
    var q := Query(Locations[i], Statuses[j], Events[k]);
    UrlRoundTrip(q);
    DebugNameOfUrl(q);
  }
}
