/**
 * biodiversity4all_redirector.user.js: on an observation page of biodiversity4all.org,
 * the page of the same observation on inaturalist.org.  The script matches
 * `location.href` against `/\/observations\/(.+)/` and, when the captured group is
 * truthy, replaces the location with the iNaturalist URL built from that group.
 */
module ObservationRedirect {
  import opened Wrappers
  import opened JsString

  const ObservationsSegment := "/observations/"
  const INaturalistHost := "https://www.inaturalist.org"
  const BiodiversityHost := "https://www.biodiversity4all.org"

  /** The fixed part of the new URL. */
  const RedirectBase := INaturalistHost + ObservationsSegment

  /** The characters a JavaScript `.` does not match without the `s` flag. */
  predicate IsLineTerminator(c: char) {
    c == '\n' || c == '\r' || c == '\U{2028}' || c == '\U{2029}'
  }

  predicate NoLineTerminator(t: string) {
    forall k :: 0 <= k < |t| ==> !IsLineTerminator(t[k])
  }

  /** The length of the run of `.` characters at `j` (greedy `.*`). */
  function LineRun(s: string, j: nat): (n: nat)
    requires j <= |s|
    ensures j + n <= |s|
    decreases |s| - j
  {
    if j < |s| && !IsLineTerminator(s[j]) then 1 + LineRun(s, j + 1) else 0
  }

  /** The run holds no line terminator and stops at the first one or at the end. */
  lemma {:induction false} LineRunSpan(s: string, j: nat)
    requires j <= |s|
    ensures forall k :: j <= k < j + LineRun(s, j) ==> !IsLineTerminator(s[k])
    ensures j + LineRun(s, j) == |s| || IsLineTerminator(s[j + LineRun(s, j)])
    decreases |s| - j
  {
    if j < |s| && !IsLineTerminator(s[j]) {
      LineRunSpan(s, j + 1);
    }
  }

  /** A run of exactly `n` characters other than line terminators is what `LineRun` measures. */
  lemma LineRunExact(s: string, j: nat, n: nat)
    requires j + n <= |s|
    requires forall k :: j <= k < j + n ==> !IsLineTerminator(s[k])
    requires j + n == |s| || IsLineTerminator(s[j + n])
    ensures LineRun(s, j) == n
  {
    LineRunSpan(s, j);
  }

  /** The pattern can match at `i`: the segment, then at least one character for `(.+)`. */
  predicate MatchesAt(s: string, i: nat) {
    OccursAt(s, ObservationsSegment, i) && i + |ObservationsSegment| < |s|
    && !IsLineTerminator(s[i + |ObservationsSegment|])
  }

  /** The first index at or after `i` where the pattern matches. */
  function FirstMatchFrom(s: string, i: nat): (r: Option<nat>)
    requires i <= |s|
    ensures r.Some? ==> i <= r.value && MatchesAt(s, r.value)
    ensures r.Some? ==> forall q :: i <= q < r.value ==> !MatchesAt(s, q)
    ensures r.None? ==> forall q: nat :: i <= q ==> !MatchesAt(s, q)
    decreases |s| - i
  {
    if MatchesAt(s, i) then Some(i)
    else if i == |s| then None
    else FirstMatchFrom(s, i + 1)
  }

  /** A match of the pattern: where it starts, and the captured group `match[1]`. */
  datatype Match = Match(index: nat, id: string)

  /**
   * `href.match(/\/observations\/(.+)/)`: the leftmost match, described
   * declaratively.  Its group follows the segment, is not empty, holds no line
   * terminator, and runs up to the first line terminator or the end; None means the
   * pattern matches nowhere.
   */
  function FindObservation(href: string): (r: Option<Match>)
    ensures r.None? <==> forall q: nat :: !MatchesAt(href, q)
    ensures r.Some? ==> MatchesAt(href, r.value.index)
    ensures r.Some? ==> forall q :: 0 <= q < r.value.index ==> !MatchesAt(href, q)
    ensures r.Some? ==> OccursAt(href, ObservationsSegment + r.value.id, r.value.index)
    ensures r.Some? ==> r.value.id != "" && NoLineTerminator(r.value.id)
    ensures r.Some? ==> var e := r.value.index + |ObservationsSegment| + |r.value.id|;
                        e == |href| || IsLineTerminator(href[e])
  {
    match FirstMatchFrom(href, 0)
    case None => None
    case Some(i) =>
      var j := i + |ObservationsSegment|;
      LineRunSpan(href, j);
      var id := href[j..j + LineRun(href, j)];
      assert id[0] == href[j];
      assert OccursAt(href, ObservationsSegment + id, i) by {
        assert href[i..j + |id|] == href[i..j] + href[j..j + |id|];
      }
      Some(Match(i, id))
  }

  /**
   * The URL the script sends the browser to, or None when it leaves the page
   * alone: the group is always truthy once the pattern matches, so the page is
   * redirected exactly when the pattern matches.
   */
  function RedirectTarget(href: string): (r: Option<string>)
    ensures r.None? <==> forall q: nat :: !MatchesAt(href, q)
    ensures r.Some? ==> r.value == RedirectBase + FindObservation(href).value.id
  {
    match FindObservation(href)
    case Some(m) => if m.id != "" then Some(RedirectBase + m.id) else None
    case None => None
  }

  /** No `/` of `host` is followed by an `o`, so the segment cannot start inside it. */
  predicate NoSegmentStart(host: string) {
    forall j :: 0 <= j < |host| && host[j] == '/' ==> j + 1 < |host| && host[j + 1] != 'o'
  }

  lemma HostsHaveNoSegmentStart()
    ensures NoSegmentStart(BiodiversityHost) && NoSegmentStart(INaturalistHost)
  {
  }

  /** With such a host in front, the pattern cannot match before the segment that follows it. */
  lemma NoMatchInHost(host: string, rest: string, q: nat)
    requires NoSegmentStart(host) && q < |host|
    ensures !OccursAt(host + rest, ObservationsSegment, q)
  {
    var s := host + rest;
    assert s[q] == host[q];
    if host[q] == '/' {
      assert s[q + 1] == host[q + 1];
      MismatchNotOccurs(s, ObservationsSegment, q, 1);
    } else {
      MismatchNotOccurs(s, ObservationsSegment, q, 0);
    }
  }

  /**
   * An observation URL on such a host whose path after the segment holds no line
   * terminator is matched at the segment, and the whole rest of the URL is the group,
   * later copies of the segment included.
   */
  lemma FindOnHost(host: string, id: string)
    requires NoSegmentStart(host) && id != "" && NoLineTerminator(id)
    ensures FindObservation(host + ObservationsSegment + id) == Some(Match(|host|, id))
  {
    var s := host + ObservationsSegment + id;
    SegmentAfterHost(host, id);
    LeftmostMatch(s, |host|);
    assert s[|host| + |ObservationsSegment|..] == id;
    GroupRunsToEnd(s, |host|);
  }

  /** The segment right after the host is where the pattern first matches. */
  lemma SegmentAfterHost(host: string, id: string)
    requires NoSegmentStart(host) && id != ""
    ensures MatchesAt(host + ObservationsSegment + id, |host|) == !IsLineTerminator(id[0])
    ensures forall q :: 0 <= q < |host| ==> !MatchesAt(host + ObservationsSegment + id, q)
  {
    var s := host + ObservationsSegment + id;
    assert s == host + (ObservationsSegment + id);
    forall q | 0 <= q < |host| ensures !MatchesAt(s, q) {
      NoMatchInHost(host, ObservationsSegment + id, q);
    }
    assert s[|host|..|host| + |ObservationsSegment|] == ObservationsSegment;
    assert s[|host| + |ObservationsSegment|] == id[0];
  }

  /** A match with none before it is the one found. */
  lemma LeftmostMatch(s: string, i: nat)
    requires MatchesAt(s, i) && forall q :: 0 <= q < i ==> !MatchesAt(s, q)
    ensures FindObservation(s).Some? && FindObservation(s).value.index == i
  {
  }

  /** When no line terminator follows the segment of the match, the group is the rest of the string. */
  lemma GroupRunsToEnd(s: string, i: nat)
    requires FindObservation(s).Some? && FindObservation(s).value.index == i
    requires i + |ObservationsSegment| <= |s| && NoLineTerminator(s[i + |ObservationsSegment|..])
    ensures FindObservation(s).value.id == s[i + |ObservationsSegment|..]
  {
    var id := FindObservation(s).value.id;
    OccursSplit(s, ObservationsSegment, id, i);
  }

  /** The page the script is installed on: a biodiversity4all observation goes to the same observation on iNaturalist. */
  lemma ObservationPageRedirects(id: string)
    requires id != "" && NoLineTerminator(id)
    ensures RedirectTarget(BiodiversityHost + ObservationsSegment + id) == Some(RedirectBase + id)
  {
    HostsHaveNoSegmentStart();
    FindOnHost(BiodiversityHost, id);
  }

  /** The bare `/observations/` page, with nothing after the segment, is not redirected. */
  lemma BareObservationsPageStays(host: string)
    requires NoSegmentStart(host)
    ensures RedirectTarget(host + ObservationsSegment) == None
  {
    var s := host + ObservationsSegment;
    forall q: nat ensures !MatchesAt(s, q) {
      if q < |host| {
        NoMatchInHost(host, ObservationsSegment, q);
      }
    }
  }

  /** Redirecting the new URL again goes nowhere else: the target is its own target. */
  lemma RedirectIdempotent(href: string)
    requires RedirectTarget(href).Some?
    ensures RedirectTarget(RedirectTarget(href).value) == RedirectTarget(href)
  {
    var id := FindObservation(href).value.id;
    HostsHaveNoSegmentStart();
    FindOnHost(INaturalistHost, id);
  }

  /** A URL without the segment is never redirected. */
  lemma NoSegmentNoRedirect(href: string)
    requires !Includes(href, ObservationsSegment)
    ensures RedirectTarget(href) == None
  {
  }
}
