/**
 * infopedia_cross_dictionary_links.user.js: on a page of the Portuguese-English
 * dictionary, a link to the same word in the Portuguese-for-foreigners dictionary,
 * and the other way round.  The choice depends only on `location.pathname`.
 */
module DictionaryLinks {
  import opened Wrappers
  import opened JsString

  const InglesPrefix := "/dicionarios/portugues-ingles/"
  const EstrangeirosPrefix := "/dicionarios/portugues-estrangeiros/"

  const PortugueseFlag := "/images/bandeira-pt.svg"
  const EstrangeirosLabel := "Português para Estrangeiros"
  const EnglishFlag := "/images/bandeira-en.svg"
  const InglesLabel := "Português-Inglês"

  /** The link the script adds: `targetDict`, `iconSrc` and `linkText`. */
  datatype CrossLink = CrossLink(target: string, icon: string, text: string)

  /**
   * The word of a dictionary page, `path.split(prefix)[1]`, when the path holds the
   * prefix and that word is truthy (non-empty).
   */
  function WordAfter(path: string, prefix: string): (w: Option<string>)
    requires prefix != ""
    ensures w.Some? ==> w.value != "" && Includes(path, prefix)
    ensures w.Some? ==> !Includes(w.value, prefix)
    ensures w.None? <==> !Truthy(SplitSecond(path, prefix))
    ensures w.Some? ==> w == SplitSecond(path, prefix)
  {
    var part := SplitSecond(path, prefix);
    if Truthy(part) then part else None
  }

  /**
   * The link for a page at `path`.  The English dictionary is tested first, so a
   * path that holds both prefixes is treated as an English-dictionary page; when its
   * word is empty there is no link, whatever else the path holds.  A link goes to
   * the dictionary other than the one the path is classified as (English when the
   * path holds the English prefix, foreigners' otherwise): its flag and label are
   * those of that dictionary (the Portuguese flag with "Português para Estrangeiros",
   * or the English flag with "Português-Inglês"), and its target is that dictionary's prefix followed by
   * the piece of the path after the first copy of the classifying prefix.
   */
  function CrossLinkFor(path: string): (r: Option<CrossLink>)
    ensures r.Some? ==> (r.value.icon == PortugueseFlag <==> Includes(path, InglesPrefix))
    ensures r.Some? ==> (r.value.icon == PortugueseFlag <==> r.value.text == EstrangeirosLabel)
    ensures r.Some? ==> r.value.icon in {PortugueseFlag, EnglishFlag}
    ensures r.Some? ==> r.value.text == (if Includes(path, InglesPrefix) then EstrangeirosLabel else InglesLabel)
    ensures r.Some? && Includes(path, InglesPrefix) ==>
              r.value.target == EstrangeirosPrefix + SplitSecond(path, InglesPrefix).value
    ensures r.Some? && !Includes(path, InglesPrefix) ==>
              Includes(path, EstrangeirosPrefix) && r.value.target == InglesPrefix + SplitSecond(path, EstrangeirosPrefix).value
    ensures r.None? <==>
              if Includes(path, InglesPrefix) then !Truthy(SplitSecond(path, InglesPrefix))
              else !Truthy(SplitSecond(path, EstrangeirosPrefix))
  {
    if Includes(path, InglesPrefix) then
      match WordAfter(path, InglesPrefix)
      case Some(w) => Some(CrossLink(EstrangeirosPrefix + w, PortugueseFlag, EstrangeirosLabel))
      case None => None
    else if Includes(path, EstrangeirosPrefix) then
      match WordAfter(path, EstrangeirosPrefix)
      case Some(w) => Some(CrossLink(InglesPrefix + w, EnglishFlag, InglesLabel))
      case None => None
    else None
  }

  /**
   * A link's target is one dictionary's prefix followed by a non-empty word, and its
   * flag is that dictionary's: the dictionary other than the one the path is
   * classified as, by `CrossLinkFor`.
   */
  lemma LinkLeadsToOtherDictionary(path: string)
    requires CrossLinkFor(path).Some?
    ensures var l := CrossLinkFor(path).value;
            || (exists w :: w != "" && l.target == EstrangeirosPrefix + w && l.icon == PortugueseFlag)
            || (exists w :: w != "" && l.target == InglesPrefix + w && l.icon == EnglishFlag)
  {
    if Includes(path, InglesPrefix) {
      var w := WordAfter(path, InglesPrefix).value;
      assert CrossLinkFor(path).value.target == EstrangeirosPrefix + w;
    } else {
      var w := WordAfter(path, EstrangeirosPrefix).value;
      assert CrossLinkFor(path).value.target == InglesPrefix + w;
    }
  }

  /** For a path beginning with `prefix`, the word is everything after it, when no further copy of `prefix` follows. */
  lemma SplitAfterPrefix(prefix: string, w: string)
    requires prefix != "" && !Includes(w, prefix)
    ensures SplitSecond(prefix + w, prefix) == Some(w)
  {
    var s := prefix + w;
    assert OccursAt(s, prefix, 0) by {
      assert s[..|prefix|] == prefix;
    }
    assert IndexOf(s, prefix, 0) == Some(0);
    forall j: nat | |prefix| <= j ensures !OccursAt(s, prefix, j) {
      if OccursAt(s, prefix, j) {
        OccursFromSuffix(prefix, w, prefix, j);
      }
    }
    IndexOfAbsent(s, prefix, |prefix|);
    assert s[0 + |prefix|..|s|] == w;
  }

  /** A string without `/` holds neither prefix: both contain `/`. */
  lemma NoSlashNoPrefix(w: string, prefix: string)
    requires '/' !in w && prefix != "" && prefix[0] == '/'
    ensures !Includes(w, prefix)
  {
    forall i: nat | OccursAt(w, prefix, i) ensures false {
      OccursChar(w, prefix, i, 0);
    }
  }

  /** The characters of the two prefixes the proofs below look at. */
  lemma PrefixLetters()
    ensures forall k :: 0 <= k < |EstrangeirosPrefix| && EstrangeirosPrefix[k] == '/' ==> k == 0 || k == 12 || k == 35
    ensures |EstrangeirosPrefix| == 36 && EstrangeirosPrefix[13] == 'p' && EstrangeirosPrefix[23] == 'e'
    ensures |InglesPrefix| == 30 && InglesPrefix[0] == '/' && InglesPrefix[1] == 'd'
    ensures InglesPrefix[12] == '/' && InglesPrefix[23] == 'i'
  {
  }

  /**
   * A foreigners'-dictionary path whose word holds no `/` holds no English prefix:
   * the only `/` an English prefix could start at are the three of the foreigners'
   * prefix, and at none of them does the rest of it follow.
   */
  lemma EstrangeirosPathIsNotIngles(w: string)
    requires '/' !in w
    ensures !Includes(EstrangeirosPrefix + w, InglesPrefix)
  {
    var s := EstrangeirosPrefix + w;
    forall k: nat | OccursAt(s, InglesPrefix, k) ensures false {
      NoInglesAt(w, k);
    }
  }

  /** The English prefix does not start at `k` in a foreigners'-dictionary path. */
  lemma NoInglesAt(w: string, k: nat)
    requires '/' !in w
    ensures !OccursAt(EstrangeirosPrefix + w, InglesPrefix, k)
  {
    var s := EstrangeirosPrefix + w;
    PrefixLetters();
    if k + 30 <= |s| {
      if k >= 36 {
        assert s[k] == w[k - 36];
        MismatchNotOccurs(s, InglesPrefix, k, 0);
      } else if k == 0 {
        assert s[23] == EstrangeirosPrefix[23];
        MismatchNotOccurs(s, InglesPrefix, k, 23);
      } else if k == 12 {
        assert s[13] == EstrangeirosPrefix[13];
        MismatchNotOccurs(s, InglesPrefix, k, 1);
      } else if k == 35 {
        assert s[47] == w[11];
        MismatchNotOccurs(s, InglesPrefix, k, 12);
      } else {
        assert s[k] == EstrangeirosPrefix[k];
        MismatchNotOccurs(s, InglesPrefix, k, 0);
      }
    }
  }

  /**
   * The two pages of a word that holds no `/` link to each other: the link on the
   * English page leads to the foreigners' page of the same word, and back.
   */
  lemma LinksAreMutual(w: string)
    requires w != "" && '/' !in w
    ensures CrossLinkFor(InglesPrefix + w) == Some(CrossLink(EstrangeirosPrefix + w, PortugueseFlag, EstrangeirosLabel))
    ensures CrossLinkFor(EstrangeirosPrefix + w) == Some(CrossLink(InglesPrefix + w, EnglishFlag, InglesLabel))
  {
    NoSlashNoPrefix(w, InglesPrefix);
    NoSlashNoPrefix(w, EstrangeirosPrefix);
    IncludesPrefix(InglesPrefix, w);
    SplitAfterPrefix(InglesPrefix, w);
    EstrangeirosPathIsNotIngles(w);
    IncludesPrefix(EstrangeirosPrefix, w);
    SplitAfterPrefix(EstrangeirosPrefix, w);
  }

  /** A bare dictionary path, with no word after the prefix, gets no link. */
  lemma EmptyWordNoLink()
    ensures CrossLinkFor(InglesPrefix).None?
    ensures CrossLinkFor(EstrangeirosPrefix).None?
  {
    SplitAfterPrefix(InglesPrefix, "");
    assert InglesPrefix + "" == InglesPrefix;
    SplitAfterPrefix(EstrangeirosPrefix, "");
    assert EstrangeirosPrefix + "" == EstrangeirosPrefix;
    EstrangeirosPathIsNotIngles("");
  }

  /**
   * Why the word must hold no `/`: on the foreigners' page of a word that itself
   * spells out the rest of an English-dictionary path (`dicionarios/portugues-ingles/`
   * followed by anything), the English prefix is found at index 35, so any link
   * there leads to the foreigners' dictionary again instead of back.
   */
  lemma SlashedWordLinksAway(t: string)
    ensures var w := InglesPrefix[1..] + t;
            && (CrossLinkFor(EstrangeirosPrefix + w).Some? ==> CrossLinkFor(EstrangeirosPrefix + w).value.icon == PortugueseFlag)
            && CrossLinkFor(EstrangeirosPrefix + w) != Some(CrossLink(InglesPrefix + w, EnglishFlag, InglesLabel))
  {
    InglesInSlashedPath(t);
  }

  /** The English prefix starts at index 35 of the foreigners' path of such a word. */
  lemma InglesInSlashedPath(t: string)
    ensures Includes(EstrangeirosPrefix + (InglesPrefix[1..] + t), InglesPrefix)
  {
    var s := EstrangeirosPrefix + (InglesPrefix[1..] + t);
    IncludesPrefix(InglesPrefix[1..], t);
    assert OccursAt(InglesPrefix[1..] + t, InglesPrefix[1..], 0);
    OccursInSuffix(EstrangeirosPrefix, InglesPrefix[1..] + t, InglesPrefix[1..], 0);
    assert OccursAt(s, [InglesPrefix[0]], 35) by {
      assert s[35] == EstrangeirosPrefix[35];
    }
    OccursJoin(s, [InglesPrefix[0]], InglesPrefix[1..], 35);
    assert [InglesPrefix[0]] + InglesPrefix[1..] == InglesPrefix;
  }

  /**
   * The word `dicionarios/portugues-ingles/x` shows the pair of pages is then not
   * mutual: its English page links to its foreigners' page, which does not link back.
   */
  lemma SlashedWordBreaksMutualLinks()
    ensures var w := InglesPrefix[1..] + "x";
            && CrossLinkFor(InglesPrefix + w) == Some(CrossLink(EstrangeirosPrefix + w, PortugueseFlag, EstrangeirosLabel))
            && CrossLinkFor(EstrangeirosPrefix + w) != Some(CrossLink(InglesPrefix + w, EnglishFlag, InglesLabel))
  {
    var w := InglesPrefix[1..] + "x";
    IncludesPrefix(InglesPrefix, w);
    NoInglesInWord(w);
    SplitAfterPrefix(InglesPrefix, w);
    SlashedWordLinksAway("x");
  }

  /** The English prefix does not occur in that word: it is exactly as long, and starts with `d`. */
  lemma NoInglesInWord(w: string)
    requires w == InglesPrefix[1..] + "x"
    ensures !Includes(w, InglesPrefix)
  {
    assert w[0] == InglesPrefix[1];
    MismatchNotOccurs(w, InglesPrefix, 0, 0);
  }

  /**
   * Holding a `/` does not by itself break the pair: the two pages of `a/b` still
   * link to each other, since the foreigners' path of that word holds no English prefix.
   */
  lemma SlashedWordStillMutual()
    ensures CrossLinkFor(InglesPrefix + "a/b") == Some(CrossLink(EstrangeirosPrefix + "a/b", PortugueseFlag, EstrangeirosLabel))
    ensures CrossLinkFor(EstrangeirosPrefix + "a/b") == Some(CrossLink(InglesPrefix + "a/b", EnglishFlag, InglesLabel))
  {
    var w := "a/b";
    IncludesPrefix(InglesPrefix, w);
    SplitAfterPrefix(InglesPrefix, w);
    IncludesPrefix(EstrangeirosPrefix, w);
    SplitAfterPrefix(EstrangeirosPrefix, w);
    forall k: nat | OccursAt(EstrangeirosPrefix + w, InglesPrefix, k) ensures false {
      ShortWordNoInglesAt(w, k);
    }
  }

  /** In the foreigners' path of a word shorter than 6, the English prefix could only start within the foreigners' prefix, and does not. */
  lemma ShortWordNoInglesAt(w: string, k: nat)
    requires |w| < 6
    ensures !OccursAt(EstrangeirosPrefix + w, InglesPrefix, k)
  {
    var s := EstrangeirosPrefix + w;
    PrefixLetters();
    if k + 30 <= |s| {
      if k == 0 {
        assert s[23] == EstrangeirosPrefix[23];
        MismatchNotOccurs(s, InglesPrefix, k, 23);
      } else {
        assert s[k] == EstrangeirosPrefix[k];
        MismatchNotOccurs(s, InglesPrefix, k, 0);
      }
    }
  }
}
