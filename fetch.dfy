/** What every source adapter shares once HTTP and parsing are taken away:
    parsed item maps, request parameters and the event overlay on them, and
    the `servId` filter that turns a page of items into DTOs. */
module Fetch {
  import opened Wrappers
  import opened Text

  /** One parsed item: an XML element's children (tag to stripped text) or a
      JSON object whose values are strings. */
  type Item = map<string, string>

  /** Query parameters of one request. */
  type Params = map<string, string>

  /** A value of the Lambda event: JSON `null`, a string, or any other value
      (a number, a boolean, a list, an object), given by the text `str()`
      prints for it and by its truthiness. */
  datatype EventValue = Null | Str(s: string) | Other(text: string, truthy: bool)

  /** The Lambda event's parameters. */
  type Event = map<string, EventValue>

  /** `str(v)`. */
  function EventText(v: EventValue): string {
    match v
    case Null => "None"
    case Str(s) => s
    case Other(t, _) => t
  }

  /** `bool(v)`. */
  predicate EventTruthy(v: EventValue) {
    match v
    case Null => false
    case Str(s) => s != ""
    case Other(_, t) => t
  }

  /** `v not in (None, "")`: a value other than a string equals neither. */
  predicate NotBlank(v: EventValue) {
    v != Null && v != Str("")
  }

  /** The two tests the adapters apply to an event value agree on `null`
      and strings; a falsy value of another kind (`0`, `false`, `[]`)
      passes `v not in (None, "")` but not `if v`. */
  lemma EventTestsAgree(v: EventValue)
    ensures v.Null? || v.Str? ==> (NotBlank(v) <==> EventTruthy(v))
    ensures v.Other? ==> NotBlank(v)
    ensures v.Other? && !v.truthy ==> NotBlank(v) && !EventTruthy(v)
  {
  }

  /** `item.get(key)`. */
  function Get(item: Item, key: string): (r: Option<string>)
    ensures r.Some? <==> key in item
    ensures r.Some? ==> r.value == item[key]
  {
    if key in item then Some(item[key]) else None
  }

  /** What the HTTP call plus the parser deliver for one page: a network
      failure (`URLError`), a document the parser rejects, or the parsed document. */
  datatype Response<D> = NetworkError | Malformed | Parsed(doc: D)

  /** A parsed page: the result code its gate reads (`None` when the element
      or key is absent) and its list of item elements. */
  datatype ListDoc = ListDoc(resultCode: Option<string>, items: seq<Item>)

  // ---------------------------------------------------------------------------
  // Parameter overlay
  // ---------------------------------------------------------------------------

  /** Which event keys an adapter lets through. */
  datatype Admission = Whitelist(keys: set<string>) | Blacklist(keys: set<string>) | AnyKey

  /** Which event values an adapter lets through: `v not in (None, "")`, or
      `if v`. */
  datatype ValueTest = NotNoneOrEmpty | IsTruthy

  predicate Passes(test: ValueTest, v: EventValue) {
    match test
    case NotNoneOrEmpty => NotBlank(v)
    case IsTruthy => EventTruthy(v)
  }

  /** The event entry `k: v` overwrites the parameter `k`: the key is admitted
      and the value passes the adapter's test. */
  predicate Admits(rule: Admission, test: ValueTest, k: string, v: EventValue) {
    Passes(test, v) &&
    match rule
    case Whitelist(ks) => k in ks
    case Blacklist(ks) => k !in ks
    case AnyKey => true
  }

  /** The `for k, v in event_params.items(): if ...: params[k] = str(v)` loop:
      every admitted entry overwrites or adds its key with the value's text,
      every other parameter keeps its value, and nothing else appears. */
  method Overlay(base: Params, event: Event, rule: Admission, test: ValueTest) returns (params: Params)
    ensures forall k :: k in params <==> k in base || (k in event && Admits(rule, test, k, event[k]))
    ensures forall k :: k in event && Admits(rule, test, k, event[k]) ==> params[k] == EventText(event[k])
    ensures forall k :: k in base && !(k in event && Admits(rule, test, k, event[k])) ==> params[k] == base[k]
  {
    params := base;
    var todo := event.Keys;
    while todo != {}
      invariant todo <= event.Keys
      invariant forall k :: k in params <==> k in base || (k in event && k !in todo && Admits(rule, test, k, event[k]))
      invariant forall k :: k in event && k !in todo && Admits(rule, test, k, event[k]) ==> params[k] == EventText(event[k])
      invariant forall k :: k in base && !(k in event && k !in todo && Admits(rule, test, k, event[k])) ==> params[k] == base[k]
      decreases todo
    {
      var k :| k in todo;
      if Admits(rule, test, k, event[k]) {
        params := params[k := EventText(event[k])];
      }
      todo := todo - {k};
    }
  }

  /** `Overlay` under a whitelist with the `v not in (None, "")` test: a
      parameter outside the whitelist keeps its base value whatever the
      event holds. */
  method OverlayWhitelist(base: Params, event: Event, known: set<string>) returns (params: Params)
    ensures forall k :: k in params <==> k in base || (k in known && k in event && NotBlank(event[k]))
    ensures forall k :: k in known && k in event && NotBlank(event[k]) ==> params[k] == EventText(event[k])
    ensures forall k :: k in base && k !in known ==> params[k] == base[k]
    ensures forall k :: k in base && !(k in event && NotBlank(event[k])) ==> params[k] == base[k]
  {
    params := Overlay(base, event, Whitelist(known), NotNoneOrEmpty);
  }

  /** `Overlay` under a blacklist with the `if v` test: the reserved
      parameters keep their base value whatever the event holds. */
  method OverlayBlacklist(base: Params, event: Event, reserved: set<string>) returns (params: Params)
    ensures forall k :: k in params <==> k in base || (k !in reserved && k in event && EventTruthy(event[k]))
    ensures forall k :: k !in reserved && k in event && EventTruthy(event[k]) ==> params[k] == EventText(event[k])
    ensures forall k :: k in base && k in reserved ==> params[k] == base[k]
    ensures forall k :: k in base && !(k in event && EventTruthy(event[k])) ==> params[k] == base[k]
  {
    params := Overlay(base, event, Blacklist(reserved), IsTruthy);
  }

  // ---------------------------------------------------------------------------
  // Dropping items without an id
  // ---------------------------------------------------------------------------

  predicate HasServId(item: Item) {
    Truthy(Get(item, "servId"))
  }

  /** The items with a present, non-empty `servId`, in their original order. */
  function WithServId(items: seq<Item>): (r: seq<Item>)
    ensures |r| <= |items|
    ensures forall it :: it in r ==> it in items && HasServId(it)
    ensures forall it :: it in items && HasServId(it) ==> it in r
    ensures forall i :: 0 <= i < |r| ==> HasServId(r[i])
    decreases |items|
  {
    if items == [] then []
    else
      var last := items[|items| - 1];
      WithServId(items[..|items| - 1]) + (if HasServId(last) then [last] else [])
  }

  /** The filter keeps order and multiplicity: it works item by item, so the
      items kept from two pages joined are those kept from each, joined. */
  lemma {:induction false} WithServIdAppend(a: seq<Item>, b: seq<Item>)
    ensures WithServId(a + b) == WithServId(a) + WithServId(b)
    decreases |b|
  {
    if b == [] {
      assert a + b == a;
    } else {
      var init, last := b[..|b| - 1], b[|b| - 1];
      var ab := a + b;
      assert ab[..|ab| - 1] == a + init && ab[|ab| - 1] == last;
      assert WithServId(ab) == WithServId(a + init) + (if HasServId(last) then [last] else []);
      assert WithServId(b) == WithServId(init) + (if HasServId(last) then [last] else []);
      WithServIdAppend(a, init);
    }
  }

  /** A page whose every item has an id loses nothing. */
  lemma {:induction false} WithServIdAll(items: seq<Item>)
    requires forall it :: it in items ==> HasServId(it)
    ensures WithServId(items) == items
    decreases |items|
  {
    if items != [] {
      WithServIdAll(items[..|items| - 1]);
      assert items[..|items| - 1] + [items[|items| - 1]] == items;
    }
  }

  /** The `for item in raw_items: if item.get('servId'): dto_list.append(f(item))`
      loop: one DTO per item that has an id, in order. */
  method MapWithServId<T>(items: seq<Item>, f: Item -> T) returns (out: seq<T>)
    ensures |out| == |WithServId(items)|
    ensures forall i :: 0 <= i < |out| ==> out[i] == f(WithServId(items)[i])
  {
    out := [];
    var n := 0;
    while n < |items|
      invariant 0 <= n <= |items|
      invariant |out| == |WithServId(items[..n])|
      invariant forall i :: 0 <= i < |out| ==> out[i] == f(WithServId(items[..n])[i])
    {
      assert items[..n + 1][..n] == items[..n];
      if HasServId(items[n]) {
        out := out + [f(items[n])];
      }
      n := n + 1;
    }
    assert items[..n] == items;
  }
}
