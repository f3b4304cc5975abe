/** The event place (location) record of apps/events/models.py and its
    `city_state` helper. */
module Places {

  /** An event place. Every text field may be blank. */
  datatype Place = Place(
    name: string,
    description: string,
    address: string,
    city: string,
    state: string,
    zip: string,
    country: string,
    url: string)

  /** `xs` with its empty strings removed, keeping the order of the rest:
      the list comprehension `[s for s in xs if s]`. */
  function NonEmpty(xs: seq<string>): (r: seq<string>)
    ensures |r| <= |xs|
    ensures forall i :: 0 <= i < |r| ==> r[i] != ""
    ensures forall x :: x in xs && x != "" <==> x in r
  {
    if xs == [] then []
    else if xs[0] == "" then NonEmpty(xs[1..])
    else [xs[0]] + NonEmpty(xs[1..])
  }

  /** The place's city and state, each kept only when it is non-empty,
      city first. */
  function CityState(p: Place): (r: seq<string>)
    ensures |r| <= 2
    ensures forall i :: 0 <= i < |r| ==> r[i] != ""
    ensures r == (if p.city != "" then [p.city] else []) + (if p.state != "" then [p.state] else [])
  {
    var xs := [p.city, p.state];
    assert xs[1..] == [p.state] && xs[1..][1..] == [];
    assert NonEmpty(xs[1..]) == if p.state != "" then [p.state] else [];
    NonEmpty(xs)
  }

  /** Filtering distributes over concatenation, so it keeps the order and
      the number of occurrences of the non-empty strings. */
  lemma {:induction false} NonEmptyAppend(a: seq<string>, b: seq<string>)
    ensures NonEmpty(a + b) == NonEmpty(a) + NonEmpty(b)
  {
    if a == [] {
      assert a + b == b;
    } else {
      assert (a + b)[1..] == a[1..] + b;
      NonEmptyAppend(a[1..], b);
    }
  }

  /** Filtering a single string keeps it exactly when it is non-empty. */
  lemma NonEmptySingle(x: string)
    ensures NonEmpty([x]) == if x != "" then [x] else []
  {
    assert [x][1..] == [];
  }
}
