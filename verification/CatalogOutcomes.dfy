/** What the catalog search decides, said on songs, flags, durations, penalties and releases. */
module CatalogOutcomes {
  import opened Collections
  import opened StableSorting
  import opened CatalogClusters
  import opened CatalogFamilies
  import opened CatalogRanking
  import opened CatalogAcceptance

  // ---------- which issue stands for a family ----------

  /** r is as good an issue as m: cleaner, or as clean and released earlier, or both alike and found no later. */
  predicate NoWorseIssue(rules: Rules, r: Match, m: Match) {
    || rules.penalty(r.song) < rules.penalty(m.song)
    || (rules.penalty(r.song) == rules.penalty(m.song)
        && (rules.releaseTime(r.song) < rules.releaseTime(m.song)
            || (rules.releaseTime(r.song) == rules.releaseTime(m.song) && r.sourceIndex <= m.sourceIndex)))
  }

  lemma FirstKeys(a: int, s: seq<int>, b: int, t: seq<int>)
    ensures KeyLess([a] + s, [b] + t) <==> a < b || (a == b && KeyLess(s, t))
  {
    assert ([a] + s)[1..] == s && ([b] + t)[1..] == t;
  }

  lemma ThreeKeys(a: int, b: int, c: int, a': int, b': int, c': int)
    ensures KeyLess([a, b, c], [a', b', c']) <==> a < a' || (a == a' && (b < b' || (b == b' && c < c')))
  {
    hide KeyLess;
    assert [a, b, c] == [a] + ([b] + ([c] + [])) && [a', b', c'] == [a'] + ([b'] + ([c'] + []));
    FirstKeys(a, [b] + ([c] + []), a', [b'] + ([c'] + []));
    FirstKeys(b, [c] + [], b', [c'] + []);
    FirstKeys(c, [], c', []);
    NoKeys();
  }

  lemma NoKeys()
    ensures !KeyLess([], [])
  {
  }

  lemma IssueOrder(rules: Rules, r: Match, m: Match)
    ensures NoWorseIssue(rules, r, m) <==> !KeyLess(IssueKey(rules)(m), IssueKey(rules)(r))
  {
    hide KeyLess;
    ThreeKeys(rules.penalty(m.song), rules.releaseTime(m.song), m.sourceIndex, rules.penalty(r.song), rules.releaseTime(r.song), r.sourceIndex);
  }

  /** The numbers that compare families: size, cleanest presentation, earliest release of that cleanness, longest duration, first place. */
  datatype Profile = Profile(size: nat, penalty: int, release: int, longest: int, first: nat)

  ghost predicate IsProfile(rules: Rules, family: seq<Match>, p: Profile) {
    && p.size == |family|
    && (forall m | m in family :: p.penalty <= rules.penalty(m.song))
    && (exists m :: m in family && rules.penalty(m.song) == p.penalty && rules.releaseTime(m.song) == p.release)
    && (forall m | m in family && rules.penalty(m.song) == p.penalty :: p.release <= rules.releaseTime(m.song))
    && (forall m | m in family :: m.song.durationInMillis <= p.longest)
    && (exists m :: m in family && m.song.durationInMillis == p.longest)
    && (forall m | m in family :: p.first <= m.sourceIndex)
    && (exists m :: m in family && m.sourceIndex == p.first)
  }

  /** Larger first, then cleaner, then released earlier, then longer, then found earlier. */
  predicate NoWeaker(p: Profile, q: Profile) {
    || p.size > q.size
    || (p.size == q.size
        && (p.penalty < q.penalty
            || (p.penalty == q.penalty
                && (p.release < q.release
                    || (p.release == q.release
                        && (p.longest > q.longest || (p.longest == q.longest && p.first <= q.first)))))))
  }

  function ProfileOf(rules: Rules, family: seq<Match>): Profile
    requires |family| > 0
  {
    Profile(|family|, Least(family, rules.penalty), PreferredRelease(rules, family), LongestOf(family[1..], Duration(family[0])),
            EarliestSource(family))
  }

  lemma {:induction false} EarliestIsFound(family: seq<Match>)
    requires |family| > 0
    ensures exists m :: m in family && m.sourceIndex == EarliestSource(family)
  {
    var n := |family| - 1;
    if n == 0 {
      assert family[0] in family;
    } else {
      EarliestIsFound(family[..n]);
      var m :| m in family[..n] && m.sourceIndex == EarliestSource(family[..n]);
      assert family[n] in family && m in family;
    }
  }

  lemma ReleaseIsPreferred(rules: Rules, family: seq<Match>)
    requires |family| > 0
    ensures exists m :: m in family && rules.penalty(m.song) == Least(family, rules.penalty) && rules.releaseTime(m.song) == PreferredRelease(rules, family)
    ensures forall m | m in family && rules.penalty(m.song) == Least(family, rules.penalty) ::
      PreferredRelease(rules, family) <= rules.releaseTime(m.song)
  {
    hide Filter, Least;
    var penalty := Least(family, rules.penalty);
    var clean := Filter(family, WithPenalty(rules, penalty));
    var m :| m in family && rules.penalty(m.song) == penalty;
    assert WithPenalty(rules, penalty)(m);
    assert |clean| > 0;
    var r :| r in clean && rules.releaseTime(r.song) == Least(clean, rules.releaseTime);
  }

  lemma LongestIsFound(family: seq<Match>)
    requires |family| > 0
    ensures forall m | m in family :: m.song.durationInMillis <= LongestOf(family[1..], Duration(family[0]))
    ensures exists m :: m in family && m.song.durationInMillis == LongestOf(family[1..], Duration(family[0]))
  {
    hide LongestOf;
    var rest := family[1..];
    assert family == [family[0]] + rest;
    var longest := LongestOf(rest, Duration(family[0]));
    forall m | m in family ensures m.song.durationInMillis <= longest {
      assert m == family[0] || m in rest;
    }
    if longest == Duration(family[0]) {
      assert family[0] in family;
    } else {
      var m :| m in rest && Duration(m) == longest;
      assert m in family;
    }
  }

  lemma ProfileIsRight(rules: Rules, family: seq<Match>)
    requires |family| > 0
    ensures IsProfile(rules, family, ProfileOf(rules, family))
  {
    hide Least, PreferredRelease, LongestOf, EarliestSource;
    ReleaseIsPreferred(rules, family);
    LongestIsFound(family);
    EarliestIsFound(family);
  }

  lemma ProfileIsUnique(rules: Rules, family: seq<Match>, p: Profile, q: Profile)
    requires IsProfile(rules, family, p) && IsProfile(rules, family, q)
    ensures p == q
  {
  }

  lemma KeyOfProfile(rules: Rules, f: seq<Match>)
    requires |f| > 0
    ensures var p := ProfileOf(rules, f); StrengthKey(rules)(f) == [-(p.size as int), p.penalty, p.release, -p.longest, p.first]
  {
    hide Least, PreferredRelease, LongestOf, EarliestSource;
  }

  lemma StrengthOrder(rules: Rules, f: seq<Match>, g: seq<Match>)
    requires |f| > 0 && |g| > 0 && !KeyLess(StrengthKey(rules)(g), StrengthKey(rules)(f))
    ensures NoWeaker(ProfileOf(rules, f), ProfileOf(rules, g))
  {
    hide StrengthKey, ProfileOf, KeyLess;
    KeyOfProfile(rules, f);
    KeyOfProfile(rules, g);
    var p, q := ProfileOf(rules, f), ProfileOf(rules, g);
    FiveKeys(-(q.size as int), q.penalty, q.release, -q.longest, q.first, -(p.size as int), p.penalty, p.release, -p.longest, p.first);
  }

  lemma FiveKeys(a: int, b: int, c: int, d: int, e: int, a': int, b': int, c': int, d': int, e': int)
    ensures KeyLess([a, b, c, d, e], [a', b', c', d', e']) <==>
      a < a' || (a == a' && (b < b' || (b == b' && (c < c' || (c == c' && (d < d' || (d == d' && e < e')))))))
  {
    hide KeyLess;
    assert [a, b, c, d, e] == [a] + ([b] + [c, d, e]) && [a', b', c', d', e'] == [a'] + ([b'] + [c', d', e']);
    FirstKeys(a, [b] + [c, d, e], a', [b'] + [c', d', e']);
    FirstKeys(b, [c, d, e], b', [c', d', e']);
    ThreeKeys(c, d, e, c', d', e');
  }

  /** The canonical issue belongs to a family that no other one beats, and no other issue of that family is preferable. */
  lemma CanonicalIsBest(rules: Rules, pool: seq<Match>, r: Match) returns (families: seq<seq<Match>>, f: seq<Match>)
    requires Distinct(pool) && IsCanonical(rules, pool, r)
    ensures AreFamilies(rules, pool, families) && f in Unique(families) && IsFamily(rules, pool, f) && r in f
    ensures forall m | m in f :: NoWorseIssue(rules, r, m)
    ensures forall g, p, q | g in Unique(families) && IsProfile(rules, f, p) && IsProfile(rules, g, q) :: NoWeaker(p, q)
  {
    hide AreFamilies, Unique, StrengthKey, IssueKey, KeyLess, IsFamily, IsProfile, NoWeaker, NoWorseIssue, Distinct, Corroborated;
    families, f :| AreFamilies(rules, pool, families) && Leads(Unique(families), StrengthKey(rules), f) && Leads(f, IssueKey(rules), r);
    FamiliesCorroborate(rules, pool, families);
    LeaderLeads(Unique(families), StrengthKey(rules), f);
    LeaderLeads(f, IssueKey(rules), r);
    forall g | g in Unique(families) ensures IsFamily(rules, pool, g) && |g| > 0 {
      assert g in families;
      FamilyHasMembers(rules, pool, g);
    }
    forall m | m in f ensures NoWorseIssue(rules, r, m) { IssueOrder(rules, r, m); }
    forall g, p, q | g in Unique(families) && IsProfile(rules, f, p) && IsProfile(rules, g, q) ensures NoWeaker(p, q) {
      StrengthOrder(rules, f, g);
      ProfileIsRight(rules, f);
      ProfileIsRight(rules, g);
      ProfileIsUnique(rules, f, p, ProfileOf(rules, f));
      ProfileIsUnique(rules, g, q, ProfileOf(rules, g));
    }
  }

  lemma FamilyHasMembers(rules: Rules, pool: seq<Match>, f: seq<Match>)
    requires IsFamily(rules, pool, f)
    ensures |f| > 0
  {
  }

  /** The leader comes before or together with every item. */
  lemma LeaderLeads<T>(s: seq<T>, key: T -> seq<int>, x: T)
    requires Leads(s, key, x)
    ensures x in s && forall y | y in s :: !KeyLess(key(y), key(x))
  {
    hide KeyLess;
    var i :| LeadsAt(s, key, x, i);
    forall y | y in s ensures !KeyLess(key(y), key(x)) {
      var j :| 0 <= j < |s| && s[j] == y;
      KeyLessTotal(key(x), key(y));
    }
  }

  // ---------- corroboration ----------

  /** Two results with known durations within three seconds of each other. */
  ghost predicate CloseDurations(pool: seq<Match>) {
    exists x, y :: x in pool && y in pool && x != y
      && x.song.durationInMillis > 0 && y.song.durationInMillis > 0
      && x.song.durationInMillis - y.song.durationInMillis <= 3000 && y.song.durationInMillis - x.song.durationInMillis <= 3000
  }

  /** Two results with one ISRC, when all known durations under this ISRC lie within ten seconds. */
  ghost predicate SharedIsrc(rules: Rules, pool: seq<Match>) {
    exists x, y :: x in pool && y in pool && x != y
      && rules.isrcKey(x.song) != "" && rules.isrcKey(x.song) == rules.isrcKey(y.song)
      && IsrcDurationsAgree(rules, pool, rules.isrcKey(x.song))
  }

  ghost predicate IsrcDurationsAgree(rules: Rules, pool: seq<Match>, isrc: string) {
    forall a, b | a in pool && b in pool && rules.isrcKey(a.song) == isrc && rules.isrcKey(b.song) == isrc
                  && a.song.durationInMillis > 0 && b.song.durationInMillis > 0 ::
      a.song.durationInMillis - b.song.durationInMillis <= 10000
  }

  lemma TwoMembers<T>(s: seq<T>)
    requires Distinct(s)
    ensures |s| >= 2 <==> exists x, y :: x in s && y in s && x != y
  {
    if |s| >= 2 { assert s[0] in s && s[1] in s; }
  }

  lemma IsrcGroupMembers(rules: Rules, pool: seq<Match>, isrc: string)
    ensures forall m :: m in IsrcGroup(rules, pool, isrc) <==> m in pool && rules.isrcKey(m.song) == isrc
  {
    hide Filter;
    assert forall m: Match :: HasIsrc(rules, isrc)(m) <==> rules.isrcKey(m.song) == isrc;
  }

  lemma IsrcCorroboratesExactly(rules: Rules, pool: seq<Match>, isrc: string)
    requires Distinct(pool)
    ensures IsrcCorroborates(rules, pool, isrc) <==>
      && isrc != "" && IsrcDurationsAgree(rules, pool, isrc)
      && exists x, y :: x in pool && y in pool && x != y && rules.isrcKey(x.song) == isrc && rules.isrcKey(y.song) == isrc
  {
    var group := IsrcGroup(rules, pool, isrc);
    FilterDistinct(pool, HasIsrc(rules, isrc));
    IsrcGroupMembers(rules, pool, isrc);
    hide IsrcGroup, Distinct;
    TwoMembers(group);
  }

  /** When several results corroborate one recording. */
  lemma CorroboratedExactly(rules: Rules, pool: seq<Match>)
    requires Distinct(pool)
    ensures Corroborated(rules, pool) <==> CloseDurations(pool) || SharedIsrc(rules, pool)
  {
    hide IsrcCorroborates, IsrcDurationsAgree, Distinct;
    forall isrc: string ensures IsrcCorroborates(rules, pool, isrc) <==>
      && isrc != "" && IsrcDurationsAgree(rules, pool, isrc)
      && exists x, y :: x in pool && y in pool && x != y && rules.isrcKey(x.song) == isrc && rules.isrcKey(y.song) == isrc
    {
      IsrcCorroboratesExactly(rules, pool, isrc);
    }
    if SharedIsrc(rules, pool) {
      var x, y :| x in pool && y in pool && x != y && rules.isrcKey(x.song) != "" && rules.isrcKey(x.song) == rules.isrcKey(y.song)
        && IsrcDurationsAgree(rules, pool, rules.isrcKey(x.song));
      assert IsrcCorroborates(rules, pool, rules.isrcKey(x.song));
    }
  }

  // ---------- which results reach the family resolver ----------

  predicate Unconflicted(c: Comparison) {
    !c.isrcConflict && !c.versionConflict && !c.yearConflict
  }

  /** Artist and title agree exactly. */
  predicate IsExactTitle(m: Match) {
    Unconflicted(m.comparison) && m.comparison.artistExact && m.comparison.titleExact
  }

  /** The base title agrees, and a result with the exact title has the same ISRC. */
  ghost predicate IsVouchedBaseTitle(rules: Rules, ranked: seq<Match>, m: Match) {
    && Unconflicted(m.comparison) && m.comparison.artistExact && m.comparison.baseTitleExact && !m.comparison.titleExact
    && rules.isrcKey(m.song) != "" && exists e :: e in ranked && IsExactTitle(e) && rules.isrcKey(e.song) == rules.isrcKey(m.song)
  }

  predicate IsStrongCredit(m: Match) {
    Unconflicted(m.comparison) && m.comparison.titleExact
    && (m.comparison.artistCollaboratorSetExact || m.comparison.artistCatalogRolePrefixedSetExact)
  }

  predicate IsLooseCredit(m: Match) {
    Unconflicted(m.comparison)
    && ((m.comparison.artistExact && m.comparison.catalogFeatureCreditTitleVariant)
        || (m.comparison.artistCreditContainsCandidate && m.comparison.titleExact))
  }

  /** Only a candidate without ISRC, duration and version label reaches the resolver. */
  predicate IsBare(candidate: Candidate) {
    candidate.isrc == "" && candidate.durationMs == 0 && candidate.versionLabel == ""
  }

  lemma SparseMembers(candidate: Candidate, ranked: seq<Match>, p: Match -> bool)
    ensures forall m :: m in Sparse(candidate, ranked, p) <==> IsBare(candidate) && m in ranked && p(m)
  {
    hide Filter;
  }

  lemma OnlyAlbumMembers(candidate: Candidate, matches: seq<Match>, otherwise: Match -> bool)
    ensures forall m :: m in OnlyAlbum(candidate, matches, otherwise) <==>
      m in matches && if candidate.album == "" then otherwise(m) else m.comparison.albumExact
  {
    hide Filter;
    assert forall m: Match :: OnAlbum()(m) <==> m.comparison.albumExact;
  }

  /** The exact titles and what they vouch for; with an album given, first only those on the album. */
  lemma TitlePool(rules: Rules, candidate: Candidate, ranked: seq<Match>, m: Match)
    ensures m in RecordingFamily(rules, candidate, ranked) <==>
      IsBare(candidate) && m in ranked && (IsExactTitle(m) || IsVouchedBaseTitle(rules, ranked, m))
    ensures m in TitleMatches(rules, candidate, ranked) <==>
      m in RecordingFamily(rules, candidate, ranked) && (candidate.album != "" ==> m.comparison.albumExact)
  {
    var exact := Sparse(candidate, ranked, ExactTitle());
    SparseMembers(candidate, ranked, ExactTitle());
    SparseMembers(candidate, ranked, StableBaseTitle(rules, exact));
    OnlyAlbumMembers(candidate, RecordingFamily(rules, candidate, ranked), Anything());
    hide Sparse, OnlyAlbum;
    assert forall e :: e in exact <==> IsBare(candidate) && e in ranked && IsExactTitle(e);
    assert m in RecordingFamily(rules, candidate, ranked) <==> m in exact || m in Sparse(candidate, ranked, StableBaseTitle(rules, exact));
  }

  lemma StrongPool(rules: Rules, candidate: Candidate, ranked: seq<Match>, m: Match)
    ensures m in Sparse(candidate, ranked, StrongCredit()) <==> IsBare(candidate) && m in ranked && IsStrongCredit(m)
    ensures m in StrongMatches(rules, candidate, ranked) <==>
      IsBare(candidate) && m in ranked && IsStrongCredit(m)
      && if candidate.album == "" then !rules.derived(m.song) else m.comparison.albumExact
  {
    SparseMembers(candidate, ranked, StrongCredit());
    OnlyAlbumMembers(candidate, Sparse(candidate, ranked, StrongCredit()), NotDerived(rules));
    hide Sparse, OnlyAlbum;
  }

  lemma LoosePool(rules: Rules, candidate: Candidate, ranked: seq<Match>, m: Match)
    ensures m in Sparse(candidate, ranked, LooseCredit()) <==> IsBare(candidate) && m in ranked && IsLooseCredit(m)
    ensures m in LooseMatches(rules, candidate, ranked) <==>
      IsBare(candidate) && m in ranked && IsLooseCredit(m)
      && if candidate.album == "" then !rules.unsafeLoose(m.song) else m.comparison.albumExact
  {
    SparseMembers(candidate, ranked, LooseCredit());
    OnlyAlbumMembers(candidate, Sparse(candidate, ranked, LooseCredit()), NotUnsafe(rules));
    hide Sparse, OnlyAlbum;
  }

  /** Derived results leave the pool as long as another result is in it. */
  lemma PoolMembers(rules: Rules, matches: seq<Match>, m: Match)
    ensures m in Pool(rules, matches) <==>
      m in matches && (rules.derived(m.song) ==> forall x | x in matches :: rules.derived(x.song))
  {
    hide Prefer;
    assert forall x: Match :: NotDerived(rules)(x) <==> !rules.derived(x.song);
  }

  // ---------- acceptance by identifier or metadata ----------

  /** The same ISRC, the exact artist, an equivalent title, no other duration, version or year. */
  predicate IsIdentified(candidate: Candidate, m: Match) {
    && m.comparison.isrcMatch && m.comparison.artistExact
    && (m.comparison.titleExact || m.comparison.baseTitleExact || m.comparison.compactTitleExact)
    && (candidate.durationMs != 0 && m.song.durationInMillis != 0 ==>
          candidate.durationMs - m.song.durationInMillis <= 3000 && m.song.durationInMillis - candidate.durationMs <= 3000)
    && !m.comparison.versionConflict && !m.comparison.yearConflict
  }

  /** Exact artist and title, and of album and duration every one that the candidate gives, at least one. */
  predicate IsDocumented(candidate: Candidate, m: Match) {
    && Unconflicted(m.comparison) && m.comparison.artistExact && m.comparison.titleExact
    && (candidate.album != "" || candidate.durationMs != 0)
    && (candidate.album != "" ==> m.comparison.albumExact)
    && (candidate.durationMs != 0 ==> m.comparison.durationExact)
  }

  /** The first of the ranking passes, and nothing else does. */
  predicate OnlyFirst(ranked: seq<Match>, p: Match -> bool)
    requires |ranked| > 0
  {
    p(ranked[0]) && forall k | 1 <= k < |ranked| :: !p(ranked[k])
  }

  lemma UniqueBestExactly(texts: Texts, candidate: Candidate, songs: seq<Song>, ranked: seq<Match>, p: Match -> bool)
    requires IsRanking(texts, candidate, songs, ranked) && |ranked| > 0
    ensures UniqueBest(Filter(ranked, p), ranked[0]) <==> OnlyFirst(ranked, p)
  {
    RankedIsDistinct(texts, candidate, songs, ranked);
    FilterDistinct(ranked, p);
    var kept := Filter(ranked, p);
    TwoMembers(kept);
    hide Filter;
    assert ranked[0] in ranked;
    if UniqueBest(kept, ranked[0]) { UniqueBestIsBest(texts, candidate, songs, ranked, p); }
    forall k | 1 <= k < |ranked| && p(ranked[k]) && p(ranked[0]) ensures |kept| >= 2 {
      assert ranked[k] in kept && ranked[0] in kept;
    }
    if OnlyFirst(ranked, p) {
      forall m | m in kept ensures m == ranked[0] {
        var k :| 0 <= k < |ranked| && ranked[k] == m;
      }
      assert ranked[0] in kept;
    }
  }

  function Identified(candidate: Candidate): Match -> bool {
    (m: Match) => IsIdentified(candidate, m)
  }

  function Documented(candidate: Candidate): Match -> bool {
    (m: Match) => IsDocumented(candidate, m)
  }

  lemma {:induction false} SameFilter<T>(s: seq<T>, p: T -> bool, q: T -> bool)
    requires forall x :: p(x) <==> q(x)
    ensures Filter(s, p) == Filter(s, q)
  {
    if |s| > 0 { SameFilter(s[..|s| - 1], p, q); }
  }

  /** The best ranked result is accepted at once exactly when it alone is identified, or it alone is documented. */
  lemma BestIsUniqueExactly(texts: Texts, candidate: Candidate, songs: seq<Song>, ranked: seq<Match>)
    requires IsRanking(texts, candidate, songs, ranked) && |ranked| > 0
    ensures BestIsUnique(candidate, ranked) <==> OnlyFirst(ranked, Identified(candidate)) || OnlyFirst(ranked, Documented(candidate))
  {
    SameFilter(ranked, IdentifierCompatible(candidate), Identified(candidate));
    SameFilter(ranked, MetadataCompatible(candidate), Documented(candidate));
    hide Filter, IsRanking, OnlyFirst, UniqueBest;
    UniqueBestExactly(texts, candidate, songs, ranked, Identified(candidate));
    UniqueBestExactly(texts, candidate, songs, ranked, Documented(candidate));
  }

  lemma NothingIdentifies(rules: Rules, allowSingleton: bool)
    ensures !Identifies(rules, [], allowSingleton)
  {
  }

  lemma NoPools(rules: Rules, candidate: Candidate, ranked: seq<Match>)
    requires !IsBare(candidate)
    ensures TitleMatches(rules, candidate, ranked) == [] && RecordingFamily(rules, candidate, ranked) == []
    ensures StrongMatches(rules, candidate, ranked) == [] && Sparse(candidate, ranked, StrongCredit()) == []
    ensures LooseMatches(rules, candidate, ranked) == [] && Sparse(candidate, ranked, LooseCredit()) == []
  {
    var none: seq<Match> := [];
    assert Filter(none, OnAlbum()) == [] && Filter(none, NotDerived(rules)) == [] && Filter(none, NotUnsafe(rules)) == []
      && Filter(none, Anything()) == [];
  }

  /** A candidate with ISRC, duration or version label is accepted exactly by identifier or metadata, and then with the best result. */
  lemma AcceptedOnlyAtOnce(rules: Rules, texts: Texts, candidate: Candidate, songs: seq<Song>, ranked: seq<Match>)
    requires IsRanking(texts, candidate, songs, ranked) && |ranked| > 0
    requires candidate.isrc != "" || candidate.durationMs != 0 || candidate.versionLabel != ""
    ensures Acceptable(rules, candidate, ranked) <==> OnlyFirst(ranked, Identified(candidate)) || OnlyFirst(ranked, Documented(candidate))
    ensures forall r | Acceptable(rules, candidate, ranked) && IsChosen(rules, candidate, ranked, r) :: r == ranked[0]
  {
    NoPools(rules, candidate, ranked);
    NothingIdentifies(rules, true);
    NothingIdentifies(rules, false);
    hide BestIsUnique, OnlyFirst, TitleMatches, RecordingFamily, StrongMatches, Sparse, LooseMatches, Identifies, Represents, IsRanking;
    BestIsUniqueExactly(texts, candidate, songs, ranked);
  }

  // ---------- what is shown ----------

  function HasOtherId(id: string): Match -> bool {
    (m: Match) => m.song.id != id
  }

  function HasTitle(): Match -> bool {
    (m: Match) => !m.comparison.isrcConflict && (m.comparison.titleExact || m.comparison.baseTitleExact)
  }

  /** songs are those of the picked results, in their order, up to the limit. */
  ghost predicate ShowsFirst(ranked: seq<Match>, p: Match -> bool, limit: nat, songs: seq<Song>) {
    exists places, picked: seq<Match> ::
      && Picks(ranked, p, places, picked)
      && |songs| == (if |picked| <= limit then |picked| else limit)
      && forall k | 0 <= k < |songs| :: songs[k] == picked[k].song
  }

  lemma FewSongs(picked: seq<Match>, limit: nat)
    ensures var songs := FirstFew(Songs(picked), limit);
      && |songs| == (if |picked| <= limit then |picked| else limit)
      && forall k | 0 <= k < |songs| :: songs[k] == picked[k].song
  {
  }

  /** Alternatives are the best ranked results with another id. */
  lemma AlternativesShown(ranked: seq<Match>, id: string, limit: nat)
    ensures ShowsFirst(ranked, HasOtherId(id), limit, Alternatives(ranked, id, limit))
  {
    SameFilter(ranked, OtherSong(id), HasOtherId(id));
    var places := FilterPicks(ranked, HasOtherId(id));
    hide Filter, Picks, FirstFew, Songs;
    FewSongs(Filter(ranked, HasOtherId(id)), limit);
  }

  lemma TitlesShown(ranked: seq<Match>)
    ensures ShowsFirst(ranked, HasTitle(), 4, FirstFew(Songs(Filter(ranked, TitleReview())), 4))
    ensures forall m :: m in Filter(ranked, TitleReview()) <==> m in ranked && HasTitle()(m)
  {
    SameFilter(ranked, TitleReview(), HasTitle());
    var places := FilterPicks(ranked, HasTitle());
    hide Filter, Picks, FirstFew, Songs;
    FewSongs(Filter(ranked, HasTitle()), 4);
  }

  function Any(): Match -> bool {
    (m: Match) => true
  }

  lemma {:induction false} FilterAny(ranked: seq<Match>)
    ensures Filter(ranked, Any()) == ranked
  {
    if |ranked| > 0 { FilterAny(ranked[..|ranked| - 1]); }
  }

  lemma BestShown(ranked: seq<Match>)
    ensures ShowsFirst(ranked, Any(), 4, FirstFew(Songs(ranked), 4))
  {
    FilterAny(ranked);
    var places := FilterPicks(ranked, Any());
    hide Filter, Picks, FirstFew, Songs;
    FewSongs(ranked, 4);
  }

  ghost predicate IsOnly(ranked: seq<Match>, p: Match -> bool, only: Match) {
    only in ranked && p(only) && forall m | m in ranked && p(m) :: m == only
  }

  /** Without a reviewable result nothing is shown as primary. The only result with the title comes first, with three others; several
      such results are shown by themselves; and without any the best results are shown as unavailable. */
  lemma OfferWithoutPrimary(ranked: seq<Match>, r: MatchResult)
    requires Distinct(ranked) && IsOffer(ranked, r) && forall m | m in ranked :: !Reviewable(m.comparison)
    ensures r.song.None?
    ensures r.status == (if exists m :: m in ranked && HasTitle()(m) then Review else Unavailable)
    ensures (forall m | m in ranked :: !HasTitle()(m)) ==> ShowsFirst(ranked, Any(), 4, r.alternatives)
    ensures forall only | IsOnly(ranked, HasTitle(), only) && !only.comparison.versionConflict ::
      |r.alternatives| > 0 && r.alternatives[0] == only.song && ShowsFirst(ranked, HasOtherId(only.song.id), 3, r.alternatives[1..])
    ensures && (exists m :: m in ranked && HasTitle()(m))
            && (forall only | IsOnly(ranked, HasTitle(), only) :: only.comparison.versionConflict)
            ==> ShowsFirst(ranked, HasTitle(), 4, r.alternatives)
  {
    hide Filter, ShowsFirst, Alternatives, FirstFew, Songs, HasTitle, TitleReview;
    var titles := Filter(ranked, TitleReview());
    FilterDistinct(ranked, TitleReview());
    TwoMembers(titles);
    TitlesShown(ranked);
    BestShown(ranked);
    forall m | m in ranked ensures !IsDirectReview(m) { ReviewableIsDirect(m); }
    if |titles| > 0 {
      assert titles[0] in titles;
      AlternativesShown(ranked, titles[0].song.id, 3);
      assert IsOnlyTitle(titles) ==> r.alternatives[1..] == Alternatives(ranked, titles[0].song.id, 3);
    } else {
      assert forall m | m in ranked :: m !in titles;
    }
  }
}
