/**
 * fogospt_geolinks.user.js: every `.f-location` element whose text holds a pair
 * of coordinates gets a link to omaps.app and a button that copies the pair.
 *
 * The pattern `/(-?\d+\.\d+),\s*(-?\d+\.\d+)/` is matched as JavaScript does
 * (leftmost start, greedy quantifiers, `\d` = ASCII digits, `\s` = the ECMAScript
 * white-space and line-terminator characters), and the match is also given a
 * declarative description, `MatchesAt`, that the matcher is proved to agree with.
 */
module GeoLinks {
  import opened Wrappers
  import opened JsString

  predicate IsDigit(c: char) {
    '0' <= c <= '9'
  }

  /** `\s`: ECMAScript WhiteSpace and LineTerminator code points. */
  predicate IsSpace(c: char)
    ensures IsSpace(c) ==> !IsDigit(c) && c != ',' && c != '-' && c != '.'
  {
    || c == '\t' || c == '\n' || c == '\U{000B}' || c == '\U{000C}' || c == '\r' || c == ' '
    || c == '\U{00A0}' || c == '\U{1680}' || ('\U{2000}' <= c <= '\U{200A}')
    || c == '\U{2028}' || c == '\U{2029}' || c == '\U{202F}' || c == '\U{205F}'
    || c == '\U{3000}' || c == '\U{FEFF}'
  }

  predicate AllDigits(t: string) {
    |t| > 0 && forall k :: 0 <= k < |t| ==> IsDigit(t[k])
  }

  predicate AllSpaces(t: string) {
    forall k :: 0 <= k < |t| ==> IsSpace(t[k])
  }

  /** `\d+\.\d+`. */
  predicate IsUnsigned(t: string) {
    exists p :: 0 < p < |t| - 1 && t[p] == '.' && AllDigits(t[..p]) && AllDigits(t[p + 1..])
  }

  /** `-?\d+\.\d+`. */
  predicate IsNumber(t: string) {
    IsUnsigned(t) || (|t| > 0 && t[0] == '-' && IsUnsigned(t[1..]))
  }

  /** The two capture groups, and the white space the pattern skipped between them. */
  datatype Coordinates = Coordinates(latitude: string, spacing: string, longitude: string)

  /** The text the pattern matched. */
  function Matched(c: Coordinates): string {
    c.latitude + "," + c.spacing + c.longitude
  }

  /**
   * The declarative meaning of a match starting at index `i`: there the text reads
   * latitude, comma, white space, longitude, with both numbers of the right shape;
   * the greedy last `\d+` stops only where the digits stop.
   */
  ghost predicate MatchesAt(s: string, i: nat, c: Coordinates) {
    && OccursAt(s, Matched(c), i)
    && IsNumber(c.latitude) && AllSpaces(c.spacing) && IsNumber(c.longitude)
    && (i + |Matched(c)| == |s| || !IsDigit(s[i + |Matched(c)|]))
  }

  /** The length of the run of digits (greedy `\d*`) at `i`. */
  function DigitRun(s: string, i: nat): (n: nat)
    requires i <= |s|
    ensures i + n <= |s|
    decreases |s| - i
  {
    if i < |s| && IsDigit(s[i]) then 1 + DigitRun(s, i + 1) else 0
  }

  /** The run covers digits only, and stops at the first non-digit or at the end. */
  lemma {:induction false} DigitRunSpan(s: string, i: nat)
    requires i <= |s|
    ensures forall k :: i <= k < i + DigitRun(s, i) ==> IsDigit(s[k])
    ensures i + DigitRun(s, i) == |s| || !IsDigit(s[i + DigitRun(s, i)])
    decreases |s| - i
  {
    if i < |s| && IsDigit(s[i]) {
      DigitRunSpan(s, i + 1);
    }
  }

  /** The length of the run of white space (greedy `\s*`) at `i`. */
  function SpaceRun(s: string, i: nat): (n: nat)
    requires i <= |s|
    ensures i + n <= |s|
    decreases |s| - i
  {
    if i < |s| && IsSpace(s[i]) then 1 + SpaceRun(s, i + 1) else 0
  }

  /** The run covers white space only, and stops at the first other character or at the end. */
  lemma {:induction false} SpaceRunSpan(s: string, i: nat)
    requires i <= |s|
    ensures forall k :: i <= k < i + SpaceRun(s, i) ==> IsSpace(s[k])
    ensures i + SpaceRun(s, i) == |s| || !IsSpace(s[i + SpaceRun(s, i)])
    decreases |s| - i
  {
    if i < |s| && IsSpace(s[i]) {
      SpaceRunSpan(s, i + 1);
    }
  }

  /** Where the optional `-` at `i` ends. */
  function SignEnd(s: string, i: nat): (j: nat)
    requires i <= |s|
    ensures j <= |s| && (j == i || (j == i + 1 && s[i] == '-'))
  {
    if i < |s| && s[i] == '-' then i + 1 else i
  }

  /**
   * Where `-?\d+\.\d+` matched at `i` ends.  No backtracking is needed: the
   * optional sign, the digits and the dot are told apart by their first character.
   */
  function NumberEnd(s: string, i: nat): (r: Option<nat>)
    requires i <= |s|
    ensures r.Some? ==> i < r.value <= |s|
  {
    UnsignedEnd(s, SignEnd(s, i))
  }

  /** Where `\d+\.\d+` matched at `j` ends. */
  function UnsignedEnd(s: string, j: nat): (r: Option<nat>)
    requires j <= |s|
    ensures r.Some? ==> j < r.value <= |s|
  {
    FractionEnd(s, j, DigitRun(s, j))
  }

  /** Where `\.\d+` matched after the `a` integer digits at `j` ends. */
  function FractionEnd(s: string, j: nat, a: nat): (r: Option<nat>)
    requires j + a <= |s|
    ensures r.Some? ==> j + a + 1 < r.value <= |s|
  {
    if a == 0 || j + a == |s| || s[j + a] != '.' then None
    else
      var b := DigitRun(s, j + a + 1);
      if b == 0 then None else Some(j + a + 1 + b)
  }

  /** What `NumberEnd` finds is a number, and no digit follows it. */
  lemma NumberEndSound(s: string, i: nat)
    requires i <= |s| && NumberEnd(s, i).Some?
    ensures IsNumber(s[i..NumberEnd(s, i).value])
    ensures NumberEnd(s, i).value == |s| || !IsDigit(s[NumberEnd(s, i).value])
  {
    var j := SignEnd(s, i);
    UnsignedEndSound(s, j);
    SignedSpan(s, i, j, NumberEnd(s, i).value);
  }

  /** What `UnsignedEnd` finds is an unsigned number, and no digit follows it. */
  lemma UnsignedEndSound(s: string, j: nat)
    requires j <= |s| && UnsignedEnd(s, j).Some?
    ensures IsUnsigned(s[j..UnsignedEnd(s, j).value])
    ensures UnsignedEnd(s, j).value == |s| || !IsDigit(s[UnsignedEnd(s, j).value])
  {
    var a := DigitRun(s, j);
    DigitRunSpan(s, j);
    var b := DigitRun(s, j + a + 1);
    DigitRunSpan(s, j + a + 1);
    UnsignedSpan(s, j, a, b);
  }

  /** Two digit runs around a dot, found in place, form an unsigned number. */
  lemma UnsignedSpan(s: string, j: nat, a: nat, b: nat)
    requires 0 < a && 0 < b && j + a + 1 + b <= |s| && s[j + a] == '.'
    requires forall k :: j <= k < j + a ==> IsDigit(s[k])
    requires forall k :: j + a + 1 <= k < j + a + 1 + b ==> IsDigit(s[k])
    ensures IsUnsigned(s[j..j + a + 1 + b])
  {
    var t := s[j..j + a + 1 + b];
    assert t[a] == '.';
    assert AllDigits(t[..a]);
    var u := t[a + 1..];
    assert AllDigits(u) by {
      forall k | 0 <= k < |u| ensures IsDigit(u[k]) {
        assert u[k] == s[j + a + 1 + k];
      }
    }
  }

  /** An unsigned number, with or without a minus sign in front, is a number. */
  lemma SignedSpan(s: string, i: nat, j: nat, e: nat)
    requires j == i || (j == i + 1 && i < |s| && s[i] == '-')
    requires j <= e <= |s| && IsUnsigned(s[j..e])
    ensures IsNumber(s[i..e])
  {
    if j == i + 1 {
      assert s[i..e][1..] == s[j..e];
    }
  }

  /** The pattern tried at index `i`: a number, a comma, white space, a number. */
  function MatchAt(s: string, i: nat): (r: Option<Coordinates>)
    requires i <= |s|
    ensures r.Some? ==> OccursAt(s, Matched(r.value), i)
  {
    match NumberEnd(s, i)
    case None => None
    case Some(e1) => MatchComma(s, i, e1)
  }

  /** The rest of the pattern, tried once the latitude `s[i..e1]` has matched: a comma, white space, a number. */
  function MatchComma(s: string, i: nat, e1: nat): (r: Option<Coordinates>)
    requires i < e1 <= |s|
    ensures r.Some? ==> OccursAt(s, Matched(r.value), i)
  {
    if e1 < |s| && s[e1] == ',' then MatchLongitude(s, i, e1, e1 + 1 + SpaceRun(s, e1 + 1)) else None
  }

  /** The second number, tried at `m` once the latitude `s[i..e1]` and the comma have matched. */
  function MatchLongitude(s: string, i: nat, e1: nat, m: nat): (r: Option<Coordinates>)
    requires i <= e1 < m <= |s| && s[e1] == ','
    ensures r.Some? ==> OccursAt(s, Matched(r.value), i)
  {
    match NumberEnd(s, m)
    case None => None
    case Some(e2) =>
      assert s[i..e2] == s[i..e1] + s[e1..e1 + 1] + s[e1 + 1..m] + s[m..e2];
      Some(Coordinates(s[i..e1], s[e1 + 1..m], s[m..e2]))
  }

  /** The match the matcher finds at `i` is a match in the declarative sense. */
  lemma MatchAtSound(s: string, i: nat)
    requires i <= |s| && MatchAt(s, i).Some?
    ensures MatchesAt(s, i, MatchAt(s, i).value)
  {
    var e1 := NumberEnd(s, i).value;
    LatitudeStep(s, i, e1);
    NumberEndSound(s, i);
    MatchCommaSound(s, i, e1);
  }

  /** Once the latitude `s[i..e1]` is a number, what `MatchComma` finds is a declarative match. */
  lemma MatchCommaSound(s: string, i: nat, e1: nat)
    requires i < e1 <= |s| && IsNumber(s[i..e1]) && MatchComma(s, i, e1).Some?
    ensures MatchesAt(s, i, MatchComma(s, i, e1).value)
  {
    var m := e1 + 1 + SpaceRun(s, e1 + 1);
    var e2 := NumberEnd(s, m).value;
    CommaStep(s, i, e1, m, e2);
    NumberEndSound(s, m);
    SpaceRunSpan(s, e1 + 1);
    PartsMatch(s, i, e1, m, e2);
  }

  /** The three spans `MatchAt` reads, side by side, form a declarative match. */
  lemma PartsMatch(s: string, i: nat, e1: nat, m: nat, e2: nat)
    requires i <= e1 < m <= e2 <= |s|
    requires IsNumber(s[i..e1]) && s[e1] == ',' && IsNumber(s[m..e2])
    requires forall k :: e1 + 1 <= k < m ==> IsSpace(s[k])
    requires e2 == |s| || !IsDigit(s[e2])
    ensures MatchesAt(s, i, Coordinates(s[i..e1], s[e1 + 1..m], s[m..e2]))
  {
    var c := Coordinates(s[i..e1], s[e1 + 1..m], s[m..e2]);
    assert s[e1..e1 + 1] == ",";
    assert s[i..e2] == Matched(c) by {
      assert s[i..e2] == s[i..e1] + s[e1..e1 + 1] + s[e1 + 1..m] + s[m..e2];
    }
    assert AllSpaces(c.spacing) by {
      forall k | 0 <= k < |c.spacing| ensures IsSpace(c.spacing[k]) {
        assert c.spacing[k] == s[e1 + 1 + k];
      }
    }
  }

  /** An unsigned number found in place, followed by a non-digit, is what `UnsignedEnd` finds. */
  lemma UnsignedEndComplete(s: string, j: nat, u: string)
    requires OccursAt(s, u, j) && IsUnsigned(u)
    requires j + |u| == |s| || !IsDigit(s[j + |u|])
    ensures j < |s| && IsDigit(s[j])
    ensures UnsignedEnd(s, j) == Some(j + |u|)
  {
    var p :| 0 < p < |u| - 1 && u[p] == '.' && AllDigits(u[..p]) && AllDigits(u[p + 1..]);
    forall k | j <= k < j + p ensures IsDigit(s[k]) {
      assert s[k] == u[k - j] == u[..p][k - j];
    }
    assert s[j + p] == u[p];
    DigitRunExact(s, j, p);
    forall k | j + p + 1 <= k < j + |u| ensures IsDigit(s[k]) {
      assert s[k] == u[k - j] == u[p + 1..][k - j - p - 1];
    }
    DigitRunExact(s, j + p + 1, |u| - p - 1);
    UnsignedEndFromRuns(s, j, p, |u| - p - 1);
  }

  /** `UnsignedEnd` read off its two digit runs. */
  lemma UnsignedEndFromRuns(s: string, j: nat, a: nat, b: nat)
    requires j + a < |s| && s[j + a] == '.'
    requires DigitRun(s, j) == a > 0 && DigitRun(s, j + a + 1) == b > 0
    ensures UnsignedEnd(s, j) == Some(j + a + 1 + b)
  {
  }

  /** A number of the right shape followed by a non-digit is exactly what `NumberEnd` finds. */
  lemma NumberEndComplete(s: string, i: nat, t: string, e: nat)
    requires OccursAt(s, t, i) && IsNumber(t) && e == i + |t|
    requires e == |s| || !IsDigit(s[e])
    ensures NumberEnd(s, i) == Some(e)
  {
    if IsUnsigned(t) {
      UnsignedEndComplete(s, i, t);
      assert SignEnd(s, i) == i;
    } else {
      var u := t[1..];
      assert s[i] == t[0];
      assert OccursAt(s, u, i + 1) by {
        assert s[i + 1..i + 1 + |u|] == s[i..i + |t|][1..];
      }
      UnsignedEndComplete(s, i + 1, u);
      assert SignEnd(s, i) == i + 1;
    }
  }

  lemma DigitRunExact(s: string, j: nat, n: nat)
    requires j + n <= |s|
    requires forall k :: j <= k < j + n ==> IsDigit(s[k])
    requires j + n == |s| || !IsDigit(s[j + n])
    ensures DigitRun(s, j) == n
  {
    DigitRunSpan(s, j);
  }

  lemma SpaceRunExact(s: string, j: nat, n: nat)
    requires j + n <= |s|
    requires forall k :: j <= k < j + n ==> IsSpace(s[k])
    requires j + n == |s| || !IsSpace(s[j + n])
    ensures SpaceRun(s, j) == n
  {
    SpaceRunSpan(s, j);
  }

  /** A number starts with a sign or a digit, never with white space. */
  lemma NumberStart(t: string)
    requires IsNumber(t)
    ensures |t| > 0 && (t[0] == '-' || IsDigit(t[0])) && !IsSpace(t[0])
  {
    if IsUnsigned(t) {
      var p :| 0 < p < |t| - 1 && t[p] == '.' && AllDigits(t[..p]) && AllDigits(t[p + 1..]);
      assert t[0] == t[..p][0];
    }
  }

  /** Every declarative match at `i` is the one the matcher finds there; so there is at most one. */
  lemma MatchAtComplete(s: string, i: nat, c: Coordinates)
    requires MatchesAt(s, i, c)
    ensures i <= |s| && MatchAt(s, i) == Some(c)
  {
    var e1 := i + |c.latitude|;
    var m := e1 + 1 + |c.spacing|;
    MatchedParts(s, i, e1, m, c);
    PartsComplete(s, i, e1, m, m + |c.longitude|, c);
  }

  /** Three parts of the right shapes, found in place, are what the matcher reads. */
  lemma PartsComplete(s: string, i: nat, e1: nat, m: nat, e2: nat, c: Coordinates)
    requires e1 == i + |c.latitude| && m == e1 + 1 + |c.spacing| && e2 == m + |c.longitude|
    requires OccursAt(s, c.latitude, i) && e1 < |s| && s[e1] == ','
    requires OccursAt(s, c.spacing, e1 + 1) && OccursAt(s, c.longitude, m)
    requires IsNumber(c.latitude) && AllSpaces(c.spacing) && IsNumber(c.longitude)
    requires e2 == |s| || !IsDigit(s[e2])
    ensures MatchAt(s, i) == Some(c)
  {
    NumberEndComplete(s, i, c.latitude, e1);
    SpacingRun(s, e1 + 1, c.spacing, c.longitude);
    NumberEndComplete(s, m, c.longitude, e2);
    StepsComplete(s, i, e1, m, e2, c);
  }

  /** The text of a match, found in place, reads latitude, comma, spacing, longitude. */
  lemma MatchedParts(s: string, i: nat, e1: nat, m: nat, c: Coordinates)
    requires OccursAt(s, Matched(c), i)
    requires e1 == i + |c.latitude| && m == e1 + 1 + |c.spacing|
    ensures OccursAt(s, c.latitude, i) && e1 < |s| && s[e1] == ','
    ensures OccursAt(s, c.spacing, e1 + 1) && OccursAt(s, c.longitude, m)
  {
    var lat, sp, lon := c.latitude, c.spacing, c.longitude;
    OccursSplit(s, lat + "," + sp, lon, i);
    OccursSplit(s, lat + ",", sp, i);
    OccursSplit(s, lat, ",", i);
    assert s[e1..e1 + 1] == ",";
  }

  /** The matcher's three steps, each reading one part found in place, give back the parts. */
  lemma StepsComplete(s: string, i: nat, e1: nat, m: nat, e2: nat, c: Coordinates)
    requires e1 == i + |c.latitude| && m == e1 + 1 + |c.spacing| && e2 == m + |c.longitude|
    requires OccursAt(s, c.latitude, i) && e1 < |s| && s[e1] == ','
    requires OccursAt(s, c.spacing, e1 + 1) && OccursAt(s, c.longitude, m)
    requires NumberEnd(s, i) == Some(e1) && SpaceRun(s, e1 + 1) == |c.spacing|
    requires NumberEnd(s, m) == Some(e2)
    ensures MatchAt(s, i) == Some(c)
  {
    MatchAtFromParts(s, i, e1, m, e2);
    assert s[i..e1] == c.latitude;
    assert s[e1 + 1..m] == c.spacing;
    assert s[m..e2] == c.longitude;
  }

  /** White space found in place before a number is exactly what `SpaceRun` skips. */
  lemma SpacingRun(s: string, j: nat, sp: string, lon: string)
    requires OccursAt(s, sp, j) && AllSpaces(sp)
    requires OccursAt(s, lon, j + |sp|) && IsNumber(lon)
    ensures SpaceRun(s, j) == |sp|
  {
    forall k | j <= k < j + |sp| ensures IsSpace(s[k]) {
      assert s[k] == sp[k - j];
    }
    NumberStart(lon);
    assert s[j + |sp|] == lon[0];
    SpaceRunExact(s, j, |sp|);
  }

  /** `MatchAt` read off its three steps. */
  lemma MatchAtFromParts(s: string, i: nat, e1: nat, m: nat, e2: nat)
    requires i <= e1 < m <= e2 <= |s|
    requires NumberEnd(s, i) == Some(e1) && s[e1] == ','
    requires SpaceRun(s, e1 + 1) == m - e1 - 1 && NumberEnd(s, m) == Some(e2)
    ensures MatchAt(s, i) == Some(Coordinates(s[i..e1], s[e1 + 1..m], s[m..e2]))
  {
    LatitudeStep(s, i, e1);
    CommaStep(s, i, e1, m, e2);
  }

  /** After the latitude, `MatchAt` goes on with `MatchComma`. */
  lemma LatitudeStep(s: string, i: nat, e1: nat)
    requires i < e1 <= |s| && NumberEnd(s, i) == Some(e1)
    ensures MatchAt(s, i) == MatchComma(s, i, e1)
  {
  }

  /** `MatchComma` read off the white space it skips and where the second number ends. */
  lemma CommaStep(s: string, i: nat, e1: nat, m: nat, e2: nat)
    requires i < e1 < m <= e2 <= |s| && s[e1] == ','
    requires SpaceRun(s, e1 + 1) == m - e1 - 1 && NumberEnd(s, m) == Some(e2)
    ensures MatchComma(s, i, e1) == Some(Coordinates(s[i..e1], s[e1 + 1..m], s[m..e2]))
  {
  }

  /** `found.index` and the captures, when the pattern matches. */
  datatype Found = Found(index: nat, coordinates: Coordinates)

  /** The leftmost index at or after `i` where the pattern matches. */
  function FindFrom(s: string, i: nat): (r: Option<Found>)
    requires i <= |s|
    ensures r.Some? ==> i <= r.value.index <= |s| && MatchAt(s, r.value.index) == Some(r.value.coordinates)
    ensures r.Some? ==> forall q :: i <= q < r.value.index ==> MatchAt(s, q).None?
    ensures r.None? ==> forall q :: i <= q <= |s| ==> MatchAt(s, q).None?
    decreases |s| - i
  {
    match MatchAt(s, i)
    case Some(c) => Some(Found(i, c))
    case None => if i == |s| then None else FindFrom(s, i + 1)
  }

  /**
   * `text.match(coordPattern)`: the leftmost match, described declaratively: it is
   * a match, no match starts earlier, and None means there is no match anywhere.
   */
  function FindCoordinates(text: string): (r: Option<Found>)
    ensures r.Some? ==> MatchesAt(text, r.value.index, r.value.coordinates)
    ensures r.Some? ==> forall q: nat, c :: q < r.value.index ==> !MatchesAt(text, q, c)
    ensures r.None? ==> forall q: nat, c :: !MatchesAt(text, q, c)
  {
    FindFromAgrees(text);
    FindFrom(text, 0)
  }

  lemma FindFromAgrees(text: string)
    ensures var r := FindFrom(text, 0);
            && (r.Some? ==> MatchesAt(text, r.value.index, r.value.coordinates))
            && (r.Some? ==> forall q: nat, c :: q < r.value.index ==> !MatchesAt(text, q, c))
            && (r.None? ==> forall q: nat, c :: !MatchesAt(text, q, c))
  {
    var r := FindFrom(text, 0);
    if r.Some? {
      MatchAtSound(text, r.value.index);
    }
    forall q: nat, c | MatchesAt(text, q, c) ensures r.Some? && r.value.index <= q {
      MatchAtComplete(text, q, c);
    }
  }

  /** The text shown on the link and copied by the button: `${latitude}, ${longitude}`. */
  function DisplayText(c: Coordinates): (r: string)
    ensures StartsWith(r, c.latitude) && OccursAt(r, ", ", |c.latitude|) && EndsWith(r, c.longitude)
    ensures |r| == |c.latitude| + 2 + |c.longitude|
  {
    c.latitude + ", " + c.longitude
  }

  const MapsPrefix := "https://omaps.app/"

  /** The link's href: `https://omaps.app/${latitude},${longitude}`. */
  function MapUrl(c: Coordinates): (r: string)
    ensures StartsWith(r, MapsPrefix) && OccursAt(r, c.latitude + ",", |MapsPrefix|) && EndsWith(r, c.longitude)
    ensures |r| == |MapsPrefix| + |c.latitude| + 1 + |c.longitude|
  {
    MapsPrefix + c.latitude + "," + c.longitude
  }

  /** A match with no match before it is what `FindCoordinates` returns. */
  lemma FindCoordinatesAt(text: string, n: nat, d: Coordinates)
    requires MatchesAt(text, n, d)
    requires forall q: nat, e :: q < n ==> !MatchesAt(text, q, e)
    ensures FindCoordinates(text) == Some(Found(n, d))
  {
    var r := FindCoordinates(text);
    MatchAtComplete(text, n, d);
    MatchAtComplete(text, n, r.value.coordinates);
  }

  /**
   * The displayed text, scanned again, gives back the same two numbers, now with
   * exactly one space between them: the display normalises the source's spacing.
   */
  lemma DisplayTextReparses(c: Coordinates)
    requires IsNumber(c.latitude) && IsNumber(c.longitude)
    ensures FindCoordinates(DisplayText(c)) == Some(Found(0, Coordinates(c.latitude, " ", c.longitude)))
  {
    var d := Coordinates(c.latitude, " ", c.longitude);
    assert Matched(d) == DisplayText(c);
    assert OccursAt(DisplayText(c), Matched(d), 0);
    FindCoordinatesAt(DisplayText(c), 0, d);
  }

  /** The characters of the map URL's fixed prefix are neither signs nor digits. */
  lemma PrefixHasNoNumberStart()
    ensures forall k :: 0 <= k < |MapsPrefix| ==> MapsPrefix[k] != '-' && !IsDigit(MapsPrefix[k])
  {
  }

  /** So no match can start inside that prefix. */
  lemma PrefixBlocksMatch(x: string, q: nat, e: Coordinates)
    requires q < |MapsPrefix|
    ensures !MatchesAt(MapsPrefix + x, q, e)
  {
    if MatchesAt(MapsPrefix + x, q, e) {
      MatchStart(MapsPrefix + x, q, e);
      assert (MapsPrefix + x)[q] == MapsPrefix[q];
      PrefixHasNoNumberStart();
    }
  }

  /** A match starts with a sign or a digit. */
  lemma MatchStart(s: string, q: nat, e: Coordinates)
    requires MatchesAt(s, q, e)
    ensures q < |s| && (s[q] == '-' || IsDigit(s[q]))
  {
    MatchedParts(s, q, q + |e.latitude|, q + |e.latitude| + 1 + |e.spacing|, e);
    NumberStart(e.latitude);
    assert s[q] == e.latitude[0];
  }

  /** The map URL, scanned again, gives back the same two numbers with no space between them. */
  lemma MapUrlReparses(c: Coordinates)
    requires IsNumber(c.latitude) && IsNumber(c.longitude)
    ensures FindCoordinates(MapUrl(c)) == Some(Found(|MapsPrefix|, Coordinates(c.latitude, "", c.longitude)))
  {
    var d := Coordinates(c.latitude, "", c.longitude);
    assert MapUrl(c) == MapsPrefix + Matched(d);
    var n := |MapsPrefix|;
    assert OccursAt(MapsPrefix + Matched(d), Matched(d), n) by {
      assert (MapsPrefix + Matched(d))[n..n + |Matched(d)|] == Matched(d);
    }
    forall q: nat, e | q < n ensures !MatchesAt(MapsPrefix + Matched(d), q, e) {
      PrefixBlocksMatch(Matched(d), q, e);
    }
    FindCoordinatesAt(MapsPrefix + Matched(d), n, d);
  }
}
