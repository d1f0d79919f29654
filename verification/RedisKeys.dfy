/** The Redis key names of vivacapi/core/cache.py and vivacapi/core/limits.py. */
module RedisKeys {
  import opened Text

  /** What a read is about: one spot's detail page, or one list/map query, named by the
      digest of its parameter string. */
  datatype Resource = Detail(uid: string) | Listing(digest: string)

  /** What a version counter covers: one spot's detail page, or all lists at once. */
  datatype Target = DetailOf(uid: string) | AllLists

  function TargetOf(res: Resource): Target {
    match res
    case Detail(uid) => DetailOf(uid)
    case Listing(_) => AllLists
  }

  function VersionKey(target: Target): string {
    match target
    case DetailOf(uid) => "spots:detail_version:" + uid
    case AllLists => "spots:version"
  }

  function EntryKey(res: Resource, version: nat): string {
    match res
    case Detail(uid) => "spots:detail:" + uid + ":v" + Decimal(version)
    case Listing(digest) => "spots:list:v" + Decimal(version) + ":" + digest
  }

  function RateLimitKey(scope: string, actor: string): string {
    "ratelimit:" + scope + ":" + actor
  }

  lemma VersionKeyInjective(t: Target, u: Target)
    requires VersionKey(t) == VersionKey(u)
    ensures t == u
  {
    var a, b := VersionKey(t), VersionKey(u);
    assert a[6] == if t.DetailOf? then 'd' else 'v';
    assert b[6] == if u.DetailOf? then 'd' else 'v';
    if t.DetailOf? {
      CutPrefix("spots:detail_version:", t.uid, u.uid);
    }
  }

  lemma DetailPartsInjective(p: string, uid: string, v: nat, uid': string, w: nat)
    requires p + uid + ":v" + Decimal(v) == p + uid' + ":v" + Decimal(w)
    ensures uid == uid' && v == w
  {
    var a, b := uid + ":", uid' + ":";
    DetailShape(p, uid, v);
    DetailShape(p, uid', w);
    CutLast(p + a, 'v', Decimal(v), p + b, Decimal(w));
    CutPrefix(p, a, b);
    assert uid == a[..|a| - 1] && uid' == b[..|b| - 1];
    DecimalInjective(v, w);
  }

  lemma DetailShape(p: string, uid: string, v: nat)
    ensures p + uid + ":v" + Decimal(v) == p + (uid + ":") + ['v'] + Decimal(v) && Free(Decimal(v), 'v')
  {
    assert ":v" == ":" + ['v'];
  }

  lemma ListingPartsInjective(p: string, v: nat, d: string, w: nat, d': string)
    requires p + Decimal(v) + ":" + d == p + Decimal(w) + ":" + d'
    ensures v == w && d == d'
  {
    var a, b := Decimal(v) + [':'] + d, Decimal(w) + [':'] + d';
    assert p + a == p + Decimal(v) + ":" + d;
    assert p + b == p + Decimal(w) + ":" + d';
    CutPrefix(p, a, b);
    CutFirst(Decimal(v), ':', d, Decimal(w), d');
    DecimalInjective(v, w);
  }

  /** No two (resource, version) pairs share an entry key, whatever the uid or digest text
      is: a path such as "a:v1" cannot be mistaken for version 1 of spot "a". */
  lemma EntryKeyInjective(r: Resource, v: nat, s: Resource, w: nat)
    requires EntryKey(r, v) == EntryKey(s, w)
    ensures r == s && v == w
  {
    assert EntryKey(r, v)[6] == if r.Detail? then 'd' else 'l';
    assert EntryKey(s, w)[6] == if s.Detail? then 'd' else 'l';
    if r.Detail? {
      DetailPartsInjective("spots:detail:", r.uid, v, s.uid, w);
    } else {
      ListingPartsInjective("spots:list:v", v, r.digest, w, s.digest);
    }
  }

  /** Version counters, cached bodies and rate-limit counters live in disjoint key ranges. */
  lemma KeyRangesDisjoint(t: Target, r: Resource, v: nat, scope: string, actor: string)
    ensures VersionKey(t) != EntryKey(r, v)
    ensures RateLimitKey(scope, actor) != VersionKey(t)
    ensures RateLimitKey(scope, actor) != EntryKey(r, v)
  {
    var a, b, c := VersionKey(t), EntryKey(r, v), RateLimitKey(scope, actor);
    assert c[0] == 'r' && a[0] == 's' && b[0] == 's';
    if t.AllLists? {
      assert a[6] == 'v' && b[6] != 'v';
    } else if r.Detail? {
      assert a[12] == '_' && b[12] == ':';
    } else {
      assert a[6] == 'd' && b[6] == 'l';
    }
  }
}
