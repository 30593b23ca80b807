/**
 * Location search (meetup/services/geocoding.py): the UK postcode shape test,
 * the normalisation of a postcode before lookup, and the turning of geocoder
 * replies into labelled places.
 *
 * The two HTTP services are parameters: `lookup` answers a postcode with the
 * Postcodes.io reply and `photon` answers a free-text query and a limit with
 * the Photon reply. A reply that never arrived (a request exception) is its
 * own alternative of the reply type.
 */
module Geocoding {
  import opened Wrappers
  import opened Text

  // ---------------------------------------------------------------------------
  // POSTCODE_RE and is_postcode
  // ---------------------------------------------------------------------------

  /** `[A-Z]` under IGNORECASE. */
  predicate Letter(c: char)
  {
    'A' <= c <= 'Z' || 'a' <= c <= 'z'
  }

  /** `\d`. */
  predicate Digit(c: char)
  {
    '0' <= c <= '9'
  }

  /** The outward code `[A-Z]{1,2}\d[A-Z\d]?`: one or two letters, a digit, and
      an optional letter or digit. */
  predicate OutwardCode(o: string)
  {
    || (|o| == 2 && Letter(o[0]) && Digit(o[1]))
    || (|o| == 3 && Letter(o[0]) && Letter(o[1]) && Digit(o[2]))
    || (|o| == 3 && Letter(o[0]) && Digit(o[1]) && (Letter(o[2]) || Digit(o[2])))
    || (|o| == 4 && Letter(o[0]) && Letter(o[1]) && Digit(o[2]) && (Letter(o[3]) || Digit(o[3])))
  }

  /** The inward code `\d[A-Z]{2}`. */
  predicate InwardCode(w: string)
  {
    |w| == 3 && Digit(w[0]) && Letter(w[1]) && Letter(w[2])
  }

  /** `POSTCODE_RE` matches the whole of `s`: an outward code, any run of
      whitespace, then an inward code. */
  ghost predicate MatchesPostcode(s: string)
  {
    exists i, j | 0 <= i <= j <= |s| :: SplitsAt(s, i, j)
  }

  /** `s[..i]` is an outward code, `s[i..j]` whitespace and `s[j..]` an inward code. */
  predicate SplitsAt(s: string, i: nat, j: nat)
    requires i <= j <= |s|
  {
    OutwardCode(s[..i]) && AllSpace(s[i..j]) && InwardCode(s[j..])
  }

  /** The match, decided without search: the inward code is the last three
      characters and the outward code is what precedes them once the
      whitespace before them is dropped. */
  function PostcodeShape(s: string): bool
  {
    |s| >= 3 && InwardCode(s[|s| - 3..]) && OutwardCode(s[..TrimmedLength(s[..|s| - 3])])
  }

  /** `is_postcode`. */
  function IsPostcode(text: string): bool
  {
    PostcodeShape(Strip(text))
  }

  /** The only length a string can keep once trailing whitespace is dropped. */
  lemma {:induction false} TrimmedLengthUnique(p: string, k: nat)
    requires k <= |p| && AllSpace(p[k..]) && (k == 0 || !IsSpace(p[k - 1]))
    ensures TrimmedLength(p) == k
  {
    var t := TrimmedLength(p);
    forall m | t <= m < |p| ensures IsSpace(p[m]) {
      assert p[t..][m - t] == p[m];
    }
    forall m | k <= m < |p| ensures IsSpace(p[m]) {
      assert p[k..][m - k] == p[m];
    }
  }

  /** A split the shape test finds is a match. */
  lemma {:induction false} ShapeIsMatch(s: string)
    requires PostcodeShape(s)
    ensures MatchesPostcode(s)
  {
    var j := |s| - 3;
    var i := TrimmedLength(s[..j]);
    assert s[..j][..i] == s[..i] && s[..j][i..] == s[i..j];
    assert SplitsAt(s, i, j);
  }

  /** Any match splits where the shape test looks. */
  lemma {:induction false} MatchIsShape(s: string, i: nat, j: nat)
    requires i <= j <= |s| && SplitsAt(s, i, j)
    ensures PostcodeShape(s)
  {
    var p := s[..j];
    assert p[..i] == s[..i] && p[i..] == s[i..j];
    assert !IsSpace(p[i - 1]) by {
      assert p[i - 1] == s[..i][i - 1];
    }
    TrimmedLengthUnique(p, i);
  }

  /** The computed shape test decides exactly the regular expression. */
  lemma {:induction false} PostcodeShapeMatches(s: string)
    ensures PostcodeShape(s) <==> MatchesPostcode(s)
  {
    if PostcodeShape(s) {
      ShapeIsMatch(s);
    }
    if MatchesPostcode(s) {
      var i, j :| 0 <= i <= j <= |s| && SplitsAt(s, i, j);
      MatchIsShape(s, i, j);
    }
  }

  /** Upper-casing keeps whitespace and only whitespace. */
  lemma {:induction false} UpperKeepsSpace(c: char)
    ensures IsSpace(UpperChar(c)) == IsSpace(c)
    ensures Letter(UpperChar(c)) == Letter(c) && Digit(UpperChar(c)) == Digit(c)
  {
  }

  lemma {:induction false} TrimmedLengthUpper(p: string)
    ensures TrimmedLength(Upper(p)) == TrimmedLength(p)
  {
    var k := TrimmedLength(p);
    var u := Upper(p);
    forall i | 0 <= i < |u[k..]| ensures IsSpace(u[k..][i]) {
      UpperKeepsSpace(p[k + i]);
      assert p[k..][i] == p[k + i];
    }
    if k > 0 {
      UpperKeepsSpace(p[k - 1]);
    }
    TrimmedLengthUnique(u, k);
  }

  /** `a` and `b` have letters, and digits, at the same places. */
  predicate SameClasses(a: string, b: string)
  {
    |a| == |b| && forall i | 0 <= i < |a| :: Letter(a[i]) == Letter(b[i]) && Digit(a[i]) == Digit(b[i])
  }

  lemma {:induction false} CodesBySameClasses(a: string, b: string)
    requires SameClasses(a, b)
    ensures OutwardCode(a) == OutwardCode(b) && InwardCode(a) == InwardCode(b)
  {
  }

  lemma {:induction false} UpperSameClasses(s: string)
    ensures SameClasses(Upper(s), s)
  {
    forall i | 0 <= i < |s| {
      UpperKeepsSpace(s[i]);
    }
  }

  /** The postcode test ignores letter case, as the IGNORECASE flag says. */
  lemma {:induction false} PostcodeShapeUpper(s: string)
    ensures PostcodeShape(Upper(s)) == PostcodeShape(s)
  {
    if |s| >= 3 {
      var u, j := Upper(s), |s| - 3;
      assert u[..j] == Upper(s[..j]) && u[j..] == Upper(s[j..]);
      TrimmedLengthUpper(s[..j]);
      var k := TrimmedLength(s[..j]);
      assert u[..k] == Upper(s[..k]);
      UpperSameClasses(s[j..]);
      UpperSameClasses(s[..k]);
      CodesBySameClasses(u[j..], s[j..]);
      CodesBySameClasses(u[..k], s[..k]);
      assert PostcodeShape(u) == (InwardCode(u[j..]) && OutwardCode(u[..k]));
    }
  }

  /** The examples of a postcode and of things that are not one. */
  lemma {:induction false} PostcodeExamples()
    ensures MatchesPostcode("E1 6AN") && MatchesPostcode("SW1A 1AA") && MatchesPostcode("EC2R 8AH")
    ensures MatchesPostcode("W1A 0AX") && MatchesPostcode("e1 6an")
    ensures !MatchesPostcode("Old Street") && !MatchesPostcode("London") && !MatchesPostcode("123")
    ensures !MatchesPostcode("")
  {
    assert SplitsAt("E1 6AN", 2, 3);
    assert SplitsAt("SW1A 1AA", 4, 5);
    assert SplitsAt("EC2R 8AH", 4, 5);
    assert SplitsAt("W1A 0AX", 3, 4);
    assert SplitsAt("e1 6an", 2, 3);
    PostcodeShapeMatches("Old Street");
    PostcodeShapeMatches("London");
    PostcodeShapeMatches("123");
    PostcodeShapeMatches("");
  }

  // ---------------------------------------------------------------------------
  // geocode_postcode
  // ---------------------------------------------------------------------------

  /** A labelled point, as both services' results are returned. */
  datatype Place = Place(caption: string, lat: real, lon: real)

  /** The `result` object of a Postcodes.io reply. */
  datatype PostcodeRecord = PostcodeRecord(postcode: string, latitude: real, longitude: real)

  /** A Postcodes.io reply: its HTTP status and the `status` and `result`
      members of its body (`result` absent, null or empty is `None`). */
  datatype PostcodeReply =
    | PostcodeUnreachable
    | PostcodeAnswer(httpStatus: int, status: Option<int>, result: Option<PostcodeRecord>)

  /** The postcode as it is sent: trimmed and upper-cased. */
  function NormalisePostcode(postcode: string): string
  {
    Upper(Strip(postcode))
  }

  /** A string that neither starts nor ends with whitespace is its own strip. */
  lemma {:induction false} StripUnchanged(s: string)
    requires s == [] || (!IsSpace(s[0]) && !IsSpace(s[|s| - 1]))
    ensures Strip(s) == s
  {
    assert LeadingSpace(s) == 0;
    TrimmedLengthUnique(s, |s|);
  }

  lemma {:induction false} UpperIdempotent(s: string)
    ensures Upper(Upper(s)) == Upper(s)
  {
  }

  /** Normalising twice is normalising once, and the postcode test gives the
      same answer before and after normalising. */
  lemma {:induction false} NormalisePostcodeStable(postcode: string)
    ensures NormalisePostcode(NormalisePostcode(postcode)) == NormalisePostcode(postcode)
    ensures IsPostcode(NormalisePostcode(postcode)) == IsPostcode(postcode)
  {
    var t := Strip(postcode);
    var u := Upper(t);
    if t != [] {
      UpperKeepsSpace(t[0]);
      UpperKeepsSpace(t[|t| - 1]);
    }
    StripUnchanged(u);
    UpperIdempotent(t);
    PostcodeShapeUpper(t);
  }

  /** `geocode_postcode`: the place Postcodes.io reports for the normalised
      postcode, or `None` when the request failed, the reply is not a 200, or
      the body does not carry status 200 and a result. */
  function GeocodePostcode(postcode: string, lookup: string -> PostcodeReply): (r: Option<Place>)
    ensures r.None? <==>
              var reply := lookup(NormalisePostcode(postcode));
              !(reply.PostcodeAnswer? && reply.httpStatus == 200 && reply.status == Some(200) && reply.result.Some?)
    ensures r.Some? ==>
              lookup(NormalisePostcode(postcode)).result == Some(PostcodeRecord(r.value.caption, r.value.lat, r.value.lon))
  {
    match lookup(NormalisePostcode(postcode))
    case PostcodeUnreachable => None
    case PostcodeAnswer(httpStatus, status, result) =>
      if httpStatus == 200 && status == Some(200) && result.Some? then
        Some(Place(result.value.postcode, result.value.latitude, result.value.longitude))
      else None
  }

  /** Two spellings of one postcode that differ only in letter case and
      surrounding whitespace are looked up alike. */
  lemma {:induction false} GeocodeIgnoresSpelling(a: string, b: string, lookup: string -> PostcodeReply)
    requires Upper(Strip(a)) == Upper(Strip(b))
    ensures GeocodePostcode(a, lookup) == GeocodePostcode(b, lookup)
  {
  }

  // ---------------------------------------------------------------------------
  // autocomplete: labels and places from Photon features
  // ---------------------------------------------------------------------------

  /** The `properties` of a Photon feature; an absent key is `None`. */
  datatype Props = Props(name: Option<string>, street: Option<string>, city: Option<string>,
                         county: Option<string>, postcode: Option<string>)

  /** A Photon feature: its properties and its `[lon, lat, ...]` coordinates
      (empty when the geometry is absent). */
  datatype Feature = Feature(props: Props, coords: seq<real>)

  /** A Photon reply: its HTTP status and its features (empty when absent). */
  datatype PhotonReply =
    | PhotonUnreachable
    | PhotonAnswer(httpStatus: int, features: seq<Feature>)

  /** Python truthiness of an optional string. */
  predicate Given(o: Option<string>)
  {
    o.Some? && o.value != ""
  }

  /** The pieces of a label: name, street, city (or else county), postcode,
      each only when given. */
  function LabelParts(p: Props): (parts: seq<string>)
    ensures forall i | 0 <= i < |parts| :: parts[i] != []
    ensures |parts| == (if Given(p.name) then 1 else 0) + (if Given(p.street) then 1 else 0)
                       + (if Given(p.city) || Given(p.county) then 1 else 0) + (if Given(p.postcode) then 1 else 0)
  {
    (if Given(p.name) then [p.name.value] else [])
    + (if Given(p.street) then [p.street.value] else [])
    + (if Given(p.city) then [p.city.value] else if Given(p.county) then [p.county.value] else [])
    + (if Given(p.postcode) then [p.postcode.value] else [])
  }

  /** The label of a feature: its pieces joined by ", ", or the query when it
      has none. */
  function Label(p: Props, query: string): string
  {
    var parts := LabelParts(p);
    if parts == [] then query else Join(", ", parts)
  }

  /** `s` occurs in `t` as a contiguous piece. */
  predicate Occurs(s: string, t: string)
  {
    exists i | 0 <= i <= |t| - |s| :: OccursAt(s, t, i)
  }

  predicate OccursAt(s: string, t: string, i: nat)
    requires i <= |t| - |s|
  {
    t[i..i + |s|] == s
  }

  /** Every piece occurs in the joined text. */
  lemma {:induction false} JoinContains(sep: string, parts: seq<string>, k: nat)
    requires k < |parts|
    ensures Occurs(parts[k], Join(sep, parts))
  {
    var t := Join(sep, parts);
    if |parts| == 1 {
      assert OccursAt(parts[0], t, 0);
    } else if k == 0 {
      assert t == parts[0] + sep + Join(sep, parts[1..]);
      assert OccursAt(parts[0], t, 0);
    } else {
      JoinContains(sep, parts[1..], k - 1);
      var rest := Join(sep, parts[1..]);
      assert parts[1..][k - 1] == parts[k];
      var i :| 0 <= i <= |rest| - |parts[k]| && OccursAt(parts[k], rest, i);
      var off := |parts[0]| + |sep|;
      assert t == parts[0] + sep + rest;
      assert t[off + i..off + i + |parts[k]|] == rest[i..i + |parts[k]|];
      assert OccursAt(parts[k], t, off + i);
    }
  }

  /** A label mentions every given name, street and postcode, and the city, or
      the county when there is no city; it is the query only when nothing is
      given, so it is never empty for a non-empty query. */
  lemma {:induction false} LabelMentions(p: Props, query: string)
    ensures Given(p.name) ==> Occurs(p.name.value, Label(p, query))
    ensures Given(p.street) ==> Occurs(p.street.value, Label(p, query))
    ensures Given(p.city) ==> Occurs(p.city.value, Label(p, query))
    ensures !Given(p.city) && Given(p.county) ==> Occurs(p.county.value, Label(p, query))
    ensures Given(p.postcode) ==> Occurs(p.postcode.value, Label(p, query))
    ensures Label(p, query) == query <== LabelParts(p) == []
    ensures query != [] ==> Label(p, query) != []
  {
    var parts := LabelParts(p);
    forall k | 0 <= k < |parts| ensures Occurs(parts[k], Label(p, query)) {
      JoinContains(", ", parts, k);
    }
    var n := if Given(p.name) then 1 else 0;
    var s := n + (if Given(p.street) then 1 else 0);
    var c := s + (if Given(p.city) || Given(p.county) then 1 else 0);
    if Given(p.name) { assert parts[0] == p.name.value; }
    if Given(p.street) { assert parts[n] == p.street.value; }
    if Given(p.city) { assert parts[s] == p.city.value; }
    if !Given(p.city) && Given(p.county) { assert parts[s] == p.county.value; }
    if Given(p.postcode) { assert parts[c] == p.postcode.value; }
    if parts != [] {
      var t := Label(p, query);
      var i :| 0 <= i <= |t| - |parts[0]| && OccursAt(parts[0], t, i);
    }
  }

  /** The place of a feature with at least two coordinates; GeoJSON puts the
      longitude first. */
  function PlaceOf(query: string, f: Feature): Place
    requires |f.coords| >= 2
  {
    Place(Label(f.props, query), f.coords[1], f.coords[0])
  }

  /** What one feature adds: its place when it has at least two coordinates. */
  function FeaturePlace(query: string, f: Feature): seq<Place>
  {
    if |f.coords| >= 2 then [PlaceOf(query, f)] else []
  }

  /** The places of the usable features, in reply order. */
  function Places(query: string, fs: seq<Feature>): seq<Place>
  {
    if fs == [] then []
    else Places(query, fs[..|fs| - 1]) + FeaturePlace(query, fs[|fs| - 1])
  }

  /** Places keep the reply's order: the places of the first `i` features come
      first, and those of later features only follow them. */
  lemma {:induction false} PlacesPrefix(query: string, fs: seq<Feature>, i: nat, j: nat)
    requires i <= j <= |fs|
    ensures Places(query, fs[..i]) <= Places(query, fs[..j])
    decreases j - i
  {
    if i < j {
      PlacesPrefix(query, fs, i, j - 1);
      assert fs[..j][..j - 1] == fs[..j - 1];
    }
  }

  /** `p` is the place of one of the features with at least two coordinates. */
  ghost predicate FromFeature(query: string, fs: seq<Feature>, p: Place)
  {
    exists i | 0 <= i < |fs| :: |fs[i].coords| >= 2 && p == PlaceOf(query, fs[i])
  }

  /** Each place comes from a feature with at least two coordinates. */
  lemma {:induction false} PlacesSound(query: string, fs: seq<Feature>)
    ensures |Places(query, fs)| <= |fs|
    ensures forall k | 0 <= k < |Places(query, fs)| :: FromFeature(query, fs, Places(query, fs)[k])
  {
    if fs != [] {
      var init := fs[..|fs| - 1];
      PlacesSound(query, init);
      var r := Places(query, fs);
      var r' := Places(query, init);
      assert r == r' + FeaturePlace(query, fs[|fs| - 1]);
      forall k | 0 <= k < |r| ensures FromFeature(query, fs, r[k]) {
        if k < |r'| {
          assert r[k] == r'[k] && FromFeature(query, init, r'[k]);
          var i :| 0 <= i < |init| && |init[i].coords| >= 2 && r'[k] == PlaceOf(query, init[i]);
          assert fs[i] == init[i];
        } else {
          assert r[k] == PlaceOf(query, fs[|fs| - 1]);
        }
      }
    }
  }

  /** Each feature with at least two coordinates gives its place. */
  lemma {:induction false} PlacesComplete(query: string, fs: seq<Feature>)
    ensures forall i | 0 <= i < |fs| && |fs[i].coords| >= 2 :: PlaceOf(query, fs[i]) in Places(query, fs)
  {
    if fs != [] {
      var init := fs[..|fs| - 1];
      PlacesComplete(query, init);
      assert Places(query, fs) == Places(query, init) + FeaturePlace(query, fs[|fs| - 1]);
      forall i | 0 <= i < |fs| && |fs[i].coords| >= 2 ensures PlaceOf(query, fs[i]) in Places(query, fs) {
        if i < |init| {
          assert fs[i] == init[i];
        }
      }
    }
  }

  /** Each place comes from a feature with at least two coordinates, and each
      such feature gives its place. */
  lemma {:induction false} PlacesSpec(query: string, fs: seq<Feature>)
    ensures |Places(query, fs)| <= |fs|
    ensures forall k | 0 <= k < |Places(query, fs)| :: FromFeature(query, fs, Places(query, fs)[k])
    ensures forall i | 0 <= i < |fs| && |fs[i].coords| >= 2 :: PlaceOf(query, fs[i]) in Places(query, fs)
  {
    PlacesSound(query, fs);
    PlacesComplete(query, fs);
  }

  /** The feature loop of `autocomplete`. */
  method FeaturePlaces(query: string, features: seq<Feature>) returns (results: seq<Place>)
    ensures results == Places(query, features)
  {
    results := [];
    for k := 0 to |features|
      invariant results == Places(query, features[..k])
    {
      var feature := features[k];
      assert features[..k + 1][..k] == features[..k];
      assert Places(query, features[..k + 1]) == Places(query, features[..k]) + FeaturePlace(query, feature);
      if |feature.coords| >= 2 {
        results := results + [Place(Label(feature.props, query), feature.coords[1], feature.coords[0])];
      }
    }
    assert features[..|features|] == features;
  }

  /** What a free-text search yields: the places of a 200 reply, and nothing
      otherwise. */
  function FreeText(query: string, reply: PhotonReply): seq<Place>
  {
    if reply.PhotonAnswer? && reply.httpStatus == 200 then Places(query, reply.features) else []
  }

  /** `autocomplete`: nothing for a trimmed query under two characters; the
      single postcode result for a postcode that Postcodes.io knows; otherwise
      the free-text results for the trimmed query. */
  method Autocomplete(query: string, limit: nat, lookup: string -> PostcodeReply,
                      photon: (string, nat) -> PhotonReply)
    returns (results: seq<Place>)
    ensures |Strip(query)| < 2 ==> results == []
    ensures |Strip(query)| >= 2 && IsPostcode(Strip(query)) && GeocodePostcode(Strip(query), lookup).Some? ==>
              results == [GeocodePostcode(Strip(query), lookup).value]
    ensures |Strip(query)| >= 2 && !(IsPostcode(Strip(query)) && GeocodePostcode(Strip(query), lookup).Some?) ==>
              results == FreeText(Strip(query), photon(Strip(query), limit))
  {
    var q := Strip(query);
    if |q| < 2 {
      return [];
    }
    if IsPostcode(q) {
      var found := GeocodePostcode(q, lookup);
      if found.Some? {
        return [found.value];
      }
    }
    results := [];
    var reply := photon(q, limit);
    if reply.PhotonAnswer? && reply.httpStatus == 200 {
      results := FeaturePlaces(q, reply.features);
    }
  }
}
