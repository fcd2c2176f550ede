/** The key under which a batch is submitted at most once: a hash of the user and the sorted URLs. */
module IdempotencyKey {
  import opened Text
  import opened LinkStore

  // --------------------------------------------------------------- sorting byte-wise

  predicate Below(a: string, b: string) {
    a == "" || (b != "" && (a[0] < b[0] || (a[0] == b[0] && Below(a[1..], b[1..]))))
  }

  lemma {:induction false} BelowOrders(a: string, b: string)
    ensures Below(a, b) || Below(b, a)
    ensures Below(a, b) && Below(b, a) ==> a == b
    decreases |a|
  {
    if a != "" && b != "" {
      BelowOrders(a[1..], b[1..]);
      assert a == [a[0]] + a[1..] && b == [b[0]] + b[1..];
    }
  }

  lemma {:induction false} BelowTransitive(a: string, b: string, c: string)
    requires Below(a, b) && Below(b, c)
    ensures Below(a, c)
    decreases |a|
  {
    if a != "" && a[0] == b[0] == c[0] {
      BelowTransitive(a[1..], b[1..], c[1..]);
    }
  }

  predicate Sorted(urls: seq<string>) {
    forall i, j | 0 <= i < j < |urls| :: Below(urls[i], urls[j])
  }

  function Insert(url: string, urls: seq<string>): seq<string> {
    if urls == [] || Below(url, urls[0]) then [url] + urls else [urls[0]] + Insert(url, urls[1..])
  }

  function Sort(urls: seq<string>): seq<string> {
    if urls == [] then [] else Insert(urls[0], Sort(urls[1..]))
  }

  lemma {:induction false} InsertSorts(url: string, urls: seq<string>)
    requires Sorted(urls)
    ensures Sorted(Insert(url, urls)) && multiset(Insert(url, urls)) == multiset(urls) + multiset{url}
  {
    if urls == [] || Below(url, urls[0]) {
      forall j | 0 <= j < |urls|
        ensures Below(url, urls[j])
      {
        if j > 0 {
          BelowTransitive(url, urls[0], urls[j]);
        }
      }
    } else {
      var rest := Insert(url, urls[1..]);
      InsertSorts(url, urls[1..]);
      BelowOrders(url, urls[0]);
      assert urls == [urls[0]] + urls[1..];
      forall j | 0 <= j < |rest|
        ensures Below(urls[0], rest[j])
      {
        assert rest[j] in multiset(rest);
        assert rest[j] == url || rest[j] in urls[1..];
      }
    }
  }

  lemma {:induction false} SortSorts(urls: seq<string>)
    ensures Sorted(Sort(urls)) && multiset(Sort(urls)) == multiset(urls)
  {
    if urls != [] {
      SortSorts(urls[1..]);
      InsertSorts(urls[0], Sort(urls[1..]));
      assert urls == [urls[0]] + urls[1..];
    }
  }

  lemma FirstIsLeast(urls: seq<string>, url: string)
    requires Sorted(urls) && url in multiset(urls)
    ensures urls != [] && Below(urls[0], url)
  {
    var k :| 0 <= k < |urls| && urls[k] == url;
    BelowOrders(url, url);
  }

  lemma SameFirst(a: seq<string>, b: seq<string>)
    requires Sorted(a) && Sorted(b) && multiset(a) == multiset(b) && a != []
    ensures b != [] && a[0] == b[0]
  {
    assert a[0] in multiset(a);
    FirstIsLeast(b, a[0]);
    assert b[0] in multiset(b);
    FirstIsLeast(a, b[0]);
    BelowOrders(a[0], b[0]);
  }

  lemma WithoutFirst(urls: seq<string>)
    requires urls != []
    ensures multiset(urls[1..]) == multiset(urls) - multiset{urls[0]}
  {
    assert urls == [urls[0]] + urls[1..];
  }

  /** There is only one sorted list of a multiset. */
  lemma {:induction false} SortedUnique(a: seq<string>, b: seq<string>)
    requires Sorted(a) && Sorted(b) && multiset(a) == multiset(b)
    ensures a == b
  {
    if a == [] {
      assert |multiset(b)| == 0;
    } else {
      SameFirst(a, b);
      WithoutFirst(a);
      WithoutFirst(b);
      SortedUnique(a[1..], b[1..]);
      assert a == [a[0]] + a[1..] && b == [b[0]] + b[1..];
    }
  }

  // -------------------------------------------------------------------------- the key

  function Join(urls: seq<string>): string {
    if urls == [] then "" else if |urls| == 1 then urls[0] else urls[0] + ("|" + Join(urls[1..]))
  }

  /** The text that is hashed. */
  function HashedText(userId: nat, urls: seq<string>): string {
    Decimal(userId) + ":" + Join(Sort(urls))
  }

  function Urls(links: seq<CreateRequest>): seq<string> {
    seq(|links|, k requires 0 <= k < |links| => links[k].url)
  }

  /** The hash is any function of the text. */
  method ComputeIdempotencyKey(userId: nat, links: seq<CreateRequest>, hash: string -> string) returns (key: string)
    ensures key == hash(HashedText(userId, Urls(links)))
  {
    var urls: seq<string> := [];
    for i := 0 to |links|
      invariant urls == Urls(links)[..i]
    {
      urls := urls + [links[i].url];
    }
    assert urls == Urls(links);
    key := hash(Decimal(userId) + ":" + Join(Sort(urls)));
  }

  predicate AllLack(urls: seq<string>, c: char) {
    forall k | 0 <= k < |urls| :: Lacks(urls[k], c)
  }

  /** A list without separators can be read back from its join, unless it is empty or has one empty URL. */
  lemma {:induction false} JoinReadsBack(a: seq<string>, b: seq<string>)
    requires a != [] && b != [] && AllLack(a, '|') && AllLack(b, '|') && Join(a) == Join(b)
    ensures a == b
  {
    var p := if |a| == 1 then "" else "|" + Join(a[1..]);
    var q := if |b| == 1 then "" else "|" + Join(b[1..]);
    assert a[0] + p == Join(a) && b[0] + q == Join(b);
    SplitAt(a[0], p, b[0], q, '|');
    if |a| > 1 {
      assert p[1..] == Join(a[1..]) && q[1..] == Join(b[1..]);
      JoinReadsBack(a[1..], b[1..]);
    }
    assert a == [a[0]] + a[1..] && b == [b[0]] + b[1..];
  }

  /** The join is empty for no URL and for one empty URL. */
  predicate Bare(urls: seq<string>) {
    urls == [] || urls == [""]
  }

  lemma JoinEmptyIff(urls: seq<string>)
    ensures Join(urls) == "" <==> Bare(urls)
  {
  }

  lemma SortedLack(urls: seq<string>, c: char)
    requires AllLack(urls, c)
    ensures AllLack(Sort(urls), c)
  {
    SortSorts(urls);
    forall k | 0 <= k < |Sort(urls)|
      ensures Lacks(Sort(urls)[k], c)
    {
      assert Sort(urls)[k] in multiset(urls);
    }
  }

  lemma BareSort(urls: seq<string>)
    ensures Bare(Sort(urls)) <==> Bare(urls)
  {
    SortSorts(urls);
    if Bare(Sort(urls)) {
      assert |urls| == |multiset(urls)| == |Sort(urls)|;
      if urls != [] {
        assert urls[0] in multiset(Sort(urls));
      }
    }
  }

  /** The order of the links does not matter. */
  lemma OrderIrrelevant(userId: nat, a: seq<string>, b: seq<string>)
    requires multiset(a) == multiset(b)
    ensures HashedText(userId, a) == HashedText(userId, b)
  {
    SortSorts(a);
    SortSorts(b);
    SortedUnique(Sort(a), Sort(b));
  }

  /** For URLs without '|': two batches share the hashed text iff user and multiset of URLs agree, or
      one has no URL at all and the other a single empty one. */
  lemma SameTextIff(userId: nat, a: seq<string>, otherId: nat, b: seq<string>)
    requires AllLack(a, '|') && AllLack(b, '|')
    ensures HashedText(userId, a) == HashedText(otherId, b)
       <==> userId == otherId && (multiset(a) == multiset(b) || (Bare(a) && Bare(b)))
  {
    if HashedText(userId, a) == HashedText(otherId, b) {
      NumeralFirst(userId, Join(Sort(a)), otherId, Join(Sort(b)));
      SameJoin(a, b);
    }
    if multiset(a) == multiset(b) {
      OrderIrrelevant(userId, a, b);
    }
    BareSort(a);
    BareSort(b);
    JoinEmptyIff(Sort(a));
    JoinEmptyIff(Sort(b));
  }

  lemma SameJoin(a: seq<string>, b: seq<string>)
    requires AllLack(a, '|') && AllLack(b, '|') && Join(Sort(a)) == Join(Sort(b))
    ensures multiset(a) == multiset(b) || (Bare(a) && Bare(b))
  {
    SortSorts(a);
    SortSorts(b);
    BareSort(a);
    BareSort(b);
    JoinEmptyIff(Sort(a));
    JoinEmptyIff(Sort(b));
    if Join(Sort(a)) != "" {
      SortedLack(a, '|');
      SortedLack(b, '|');
      JoinReadsBack(Sort(a), Sort(b));
    }
  }

  // ------------------------------------------------------------- batches that collide

  /** The text names the user and the multiset of URLs: no other batch has it. */
  ghost predicate Unmistakable(userId: nat, urls: seq<string>) {
    forall otherId: nat, other: seq<string> | HashedText(otherId, other) == HashedText(userId, urls) ::
      otherId == userId && multiset(other) == multiset(urls)
  }

  /** The URL reads as two or more URLs in order, cut at this separator. */
  predicate CutAt(url: string, k: nat)
    requires k < |url|
  {
    url[k] == '|' && Below(url[..k], url[k + 1..])
  }

  /** One URL that is not empty and cannot be read as several in order. */
  predicate Atomic(urls: seq<string>) {
    |urls| == 1 && urls[0] != "" && forall k | 0 <= k < |urls[0]| :: !CutAt(urls[0], k)
  }

  lemma SortOfSorted(urls: seq<string>)
    requires Sorted(urls)
    ensures Sort(urls) == urls
  {
    SortSorts(urls);
    SortedUnique(Sort(urls), urls);
  }

  lemma SameSize(a: seq<string>, b: seq<string>)
    requires multiset(a) == multiset(b)
    ensures |a| == |b|
  {
    assert |multiset(a)| == |a| && |multiset(b)| == |b|;
  }

  /** Any batch shares its text with the batch of the one URL that is its joined list. */
  lemma JoinedCollides(userId: nat, urls: seq<string>)
    ensures HashedText(userId, [Join(Sort(urls))]) == HashedText(userId, urls)
  {
    SortOfSorted([Join(Sort(urls))]);
  }

  /** A URL that can be cut shares its text with its two parts. */
  lemma CutCollides(userId: nat, url: string, k: nat)
    requires k < |url| && CutAt(url, k)
    ensures HashedText(userId, [url[..k], url[k + 1..]]) == HashedText(userId, [url])
  {
    var parts := [url[..k], url[k + 1..]];
    SortOfSorted([url]);
    SortOfSorted(parts);
    assert parts[1..] == [url[k + 1..]];
    assert Join(parts) == url[..k] + ("|" + url[k + 1..]) == url;
  }

  lemma {:induction false} PrefixBelow(a: string, rest: string)
    ensures Below(a, a + rest)
  {
    if a != "" {
      PrefixBelow(a[1..], rest);
      assert (a + rest)[1..] == a[1..] + rest;
    }
  }

  lemma FirstBelowJoin(urls: seq<string>)
    requires urls != []
    ensures Below(urls[0], Join(urls))
  {
    PrefixBelow(urls[0], if |urls| == 1 then "" else "|" + Join(urls[1..]));
    assert urls[0] + "" == urls[0];
  }

  /** The join of two or more sorted URLs can be cut behind the first. */
  lemma JoinCanBeCut(urls: seq<string>)
    requires |urls| >= 2 && Sorted(urls)
    ensures |urls[0]| < |Join(urls)| && CutAt(Join(urls), |urls[0]|)
  {
    var rest := Join(urls[1..]);
    assert Join(urls) == urls[0] + ("|" + rest);
    assert Join(urls)[..|urls[0]|] == urls[0] && Join(urls)[|urls[0]| + 1..] == rest;
    FirstBelowJoin(urls[1..]);
    BelowTransitive(urls[0], urls[1], rest);
  }

  lemma AtomicUnmistakable(userId: nat, urls: seq<string>, otherId: nat, other: seq<string>)
    requires Atomic(urls) && HashedText(otherId, other) == HashedText(userId, urls)
    ensures otherId == userId && multiset(other) == multiset(urls)
  {
    NumeralFirst(otherId, Join(Sort(other)), userId, Join(Sort(urls)));
    SortOfSorted(urls);
    assert Join(Sort(other)) == urls[0];
    SortSorts(other);
    if |Sort(other)| >= 2 {
      JoinCanBeCut(Sort(other));
    } else {
      assert Sort(other) != [];
      assert Sort(other) == [urls[0]] == urls;
    }
  }

  /** For every batch of any URLs: no other batch has its text iff it is one URL, not empty, that
      cannot be read as several in order. */
  lemma UnmistakableIff(userId: nat, urls: seq<string>)
    ensures Unmistakable(userId, urls) <==> Atomic(urls)
  {
    if Atomic(urls) {
      forall otherId: nat, other: seq<string> | HashedText(otherId, other) == HashedText(userId, urls)
        ensures otherId == userId && multiset(other) == multiset(urls)
      {
        AtomicUnmistakable(userId, urls, otherId, other);
      }
    } else {
      var other := Confusable(userId, urls);
      assert HashedText(userId, other) == HashedText(userId, urls) && multiset(other) != multiset(urls);
    }
  }

  /** A different batch of the same user with the same text. */
  lemma Confusable(userId: nat, urls: seq<string>) returns (other: seq<string>)
    requires !Atomic(urls)
    ensures HashedText(userId, other) == HashedText(userId, urls) && multiset(other) != multiset(urls)
  {
    if |urls| != 1 {
      other := [Join(Sort(urls))];
      JoinedCollides(userId, urls);
    } else if urls[0] == "" {
      other := [];
      SortOfSorted(urls);
      assert Sort(urls) == [""];
    } else {
      var k :| 0 <= k < |urls[0]| && CutAt(urls[0], k);
      other := [urls[0][..k], urls[0][k + 1..]];
      assert urls == [urls[0]];
      CutCollides(userId, urls[0], k);
    }
    if multiset(other) == multiset(urls) {
      SameSize(other, urls);
    }
  }

  lemma JoinOfTwo(a: string, b: string)
    ensures Join([a, b]) == a + "|" + b
  {
    assert [a, b][1..] == [b];
    assert Join([a, b]) == a + ("|" + b);
  }

  /** The text for two URLs that their first bytes put in order, in whichever order they are submitted. */
  lemma TextOfTwo(userId: nat, a: string, b: string)
    requires a != "" && b != "" && a[0] < b[0]
    ensures HashedText(userId, [a, b]) == HashedText(userId, [b, a]) == Decimal(userId) + ":" + a + "|" + b
  {
    SortOfSorted([a, b]);
    OrderIrrelevant(userId, [a, b], [b, a]);
    JoinOfTwo(a, b);
    assert Decimal(userId) + ":" + (a + "|" + b) == Decimal(userId) + ":" + a + "|" + b;
  }

  /** The smallest case of a collision. */
  lemma SeparatorConfuses(userId: nat)
    ensures HashedText(userId, ["a|b"]) == HashedText(userId, ["a", "b"])
    ensures multiset(["a|b"]) != multiset(["a", "b"])
  {
    CutCollides(userId, "a|b", 1);
    assert "a|b"[..1] == "a" && "a|b"[2..] == "b";
    assert |multiset(["a|b"])| == 1 && |multiset(["a", "b"])| == 2;
  }
}
