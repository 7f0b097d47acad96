/** Extracting the public identities of an IMSSubscription document, and its default
    public identity: the first one that is not barred. */
module Identities {
  import opened Types

  datatype Entry = Entry(uri: string, barred: bool)

  /** The identities of one ServiceProfile in document order; a PublicIdentity without
      an Identity child is skipped. */
  function Profile(p: seq<PublicIdentity>): (r: seq<Entry>) {
    if p == [] then []
    else
      var last := p[|p| - 1];
      Profile(p[..|p| - 1]) +
      if last.identity.None? then [] else [Entry(last.identity.value, last.barred)]
  }

  /** All identities of a document in document order. */
  function Walk(ps: seq<seq<PublicIdentity>>): (r: seq<Entry>) {
    if ps == [] then [] else Walk(ps[..|ps| - 1]) + Profile(ps[|ps| - 1])
  }

  /** The URIs of a walk, each once. */
  function Ids(w: seq<Entry>): (r: seq<string>) {
    if w == [] then []
    else
      var before, uri := Ids(w[..|w| - 1]), w[|w| - 1].uri;
      if uri in before then before else before + [uri]
  }

  /** The URIs whose first mention is not barred. */
  function Unbarred(w: seq<Entry>): (r: seq<string>) {
    if w == [] then []
    else
      var before, last := w[..|w| - 1], w[|w| - 1];
      Unbarred(before) + if last.uri in Ids(before) || last.barred then [] else [last.uri]
  }

  function PublicIds(xml: Xml): (r: seq<string>) {
    Ids(Walk(xml.profiles))
  }

  function DefaultId(xml: Xml): (r: string) {
    var unbarred := Unbarred(Walk(xml.profiles));
    if unbarred == [] then "" else unbarred[0]
  }

  /** How one more mention changes both lists. */
  lemma Mention(w: seq<Entry>, e: Entry)
    ensures Ids(w + [e]) == if e.uri in Ids(w) then Ids(w) else Ids(w) + [e.uri]
    ensures Unbarred(w + [e]) == if e.uri in Ids(w) || e.barred then Unbarred(w) else Unbarred(w) + [e.uri]
  {
  }

  lemma ProfileSnoc(w: seq<Entry>, p: seq<PublicIdentity>, m: nat)
    requires m < |p|
    ensures w + Profile(p[..m + 1]) ==
              if p[m].identity.None? then w + Profile(p[..m])
              else w + Profile(p[..m]) + [Entry(p[m].identity.value, p[m].barred)]
  {
    assert p[..m + 1][..m] == p[..m];
  }

  /** The inner loop, over the PublicIdentity siblings of one profile. */
  method WalkProfile(p: seq<PublicIdentity>, ghost w: seq<Entry>, ids0: seq<string>, unbarred0: seq<string>)
    returns (ids: seq<string>, unbarred: seq<string>)
    requires ids0 == Ids(w) && unbarred0 == Unbarred(w)
    ensures ids == Ids(w + Profile(p)) && unbarred == Unbarred(w + Profile(p))
  {
    ids, unbarred := ids0, unbarred0;
    ghost var sofar := w;
    assert w + Profile(p[..0]) == w;
    hide Profile, Ids, Unbarred;
    for m := 0 to |p|
      invariant sofar == w + Profile(p[..m]) && ids == Ids(sofar) && unbarred == Unbarred(sofar)
    {
      ProfileSnoc(w, p, m);
      if p[m].identity.Some? {
        var e := Entry(p[m].identity.value, p[m].barred);
        Mention(sofar, e);
        ids, unbarred := Mentioned(e, ids, unbarred);
        sofar := sofar + [e];
      }
    }
    assert p[..|p|] == p;
  }

  /** One more mention. */
  method Mentioned(e: Entry, ids0: seq<string>, unbarred0: seq<string>)
    returns (ids: seq<string>, unbarred: seq<string>)
    ensures ids == if e.uri in ids0 then ids0 else ids0 + [e.uri]
    ensures unbarred == if e.uri in ids0 || e.barred then unbarred0 else unbarred0 + [e.uri]
  {
    ids, unbarred := ids0, unbarred0;
    if e.uri !in ids {
      ids := ids + [e.uri];
      if !e.barred {
        unbarred := unbarred + [e.uri];
      }
    }
  }

  method GetPublicAndDefaultIds(xml: Xml) returns (ids: seq<string>, defaultId: string)
    ensures ids == PublicIds(xml) && defaultId == DefaultId(xml)
  {
    ids, defaultId := [], "";
    var unbarred := [];
    var ps := xml.profiles;
    for n := 0 to |ps|
      invariant ids == Ids(Walk(ps[..n])) && unbarred == Unbarred(Walk(ps[..n]))
    {
      ids, unbarred := WalkProfile(ps[n], Walk(ps[..n]), ids, unbarred);
      assert ps[..n + 1][..n] == ps[..n];
    }
    assert ps[..|ps|] == ps;
    if unbarred != [] {
      defaultId := unbarred[0];
    }
  }

  /** Position n of a walk mentions its URI for the first time. */
  ghost predicate FirstAt(w: seq<Entry>, n: nat) {
    n < |w| && forall m :: 0 <= m < n ==> w[m].uri != w[n].uri
  }

  /** Positions m and n are the first mentions of a and b, in that order. */
  ghost predicate MentionedBefore(w: seq<Entry>, a: string, b: string) {
    exists m: nat, n: nat :: m < n && FirstAt(w, m) && FirstAt(w, n) && w[m].uri == a && w[n].uri == b
  }

  /** The extracted ids are the mentioned URIs. */
  lemma {:induction false} IdsMeaning(w: seq<Entry>)
    ensures forall u :: u in Ids(w) <==> exists n :: 0 <= n < |w| && w[n].uri == u
  {
    if w != [] {
      var before, last := w[..|w| - 1], |w| - 1;
      IdsMeaning(before);
      forall u
        ensures u in Ids(w) <==> exists n :: 0 <= n < |w| && w[n].uri == u
      {
        if n :| 0 <= n < |w| && w[n].uri == u {
          assert n < last ==> before[n].uri == u;
        }
        if u in Ids(w) && u != w[last].uri {
          assert u in Ids(before);
          var n :| 0 <= n < |before| && before[n].uri == u;
          assert w[n].uri == u;
        }
      }
    }
  }

  /** They come without duplicates, in order of first mention. */
  lemma {:induction false} IdsOrder(w: seq<Entry>, m: nat, n: nat)
    requires m < n < |Ids(w)|
    ensures Ids(w)[m] != Ids(w)[n] && MentionedBefore(w, Ids(w)[m], Ids(w)[n])
  {
    var k := |w| - 1;
    var before := w[..k];
    var a, b := Ids(w)[m], Ids(w)[n];
    IdsMeaning(before);
    if n < |Ids(before)| {
      IdsOrder(before, m, n);
      var p: nat, q: nat :| p < q && FirstAt(before, p) && FirstAt(before, q) &&
        before[p].uri == a && before[q].uri == b;
      FirstAtPrefix(w, k, p);
      FirstAtPrefix(w, k, q);
    } else {
      assert b == w[k].uri && b !in Ids(before) && a in Ids(before);
      var p := FirstMention(before, a);
      FirstAtPrefix(w, k, p);
      forall j | 0 <= j < k ensures w[j].uri != w[k].uri { assert before[j].uri in Ids(before); }
      assert FirstAt(w, k);
    }
  }

  lemma {:induction false} FirstMention(w: seq<Entry>, u: string) returns (n: nat)
    requires exists m :: 0 <= m < |w| && w[m].uri == u
    ensures FirstAt(w, n) && w[n].uri == u
  {
    n := 0;
    while w[n].uri != u
      invariant n < |w| && forall m :: 0 <= m < n ==> w[m].uri != u
      decreases |w| - n
    {
      n := n + 1;
    }
  }

  /** Position n is the first one that is a first mention and not barred. */
  ghost predicate DefaultAt(w: seq<Entry>, n: nat) {
    && FirstAt(w, n) && !w[n].barred
    && forall m: nat :: m < n && FirstAt(w, m) ==> w[m].barred
  }

  lemma FirstAtPrefix(w: seq<Entry>, k: nat, n: nat)
    requires n < k <= |w|
    ensures FirstAt(w[..k], n) <==> FirstAt(w, n)
  {
  }

  /** The head of the unbarred list is at the first unbarred first mention. */
  lemma {:induction false} UnbarredHead(w: seq<Entry>) returns (n: nat)
    requires Unbarred(w) != []
    ensures DefaultAt(w, n) && Unbarred(w)[0] == w[n].uri
  {
    var k := |w| - 1;
    var before := w[..k];
    if Unbarred(before) != [] {
      n := UnbarredHead(before);
      forall m: nat | m < k ensures FirstAt(before, m) <==> FirstAt(w, m) { FirstAtPrefix(w, k, m); }
    } else {
      n := k;
      IdsMeaning(before);
      forall m: nat | m < n && FirstAt(w, m)
        ensures w[m].barred
      {
        FirstAtPrefix(w, k, m);
        if !w[m].barred {
          NoUnbarred(before, m);
        }
      }
      forall m | 0 <= m < n ensures w[m].uri != w[n].uri { assert before[m].uri in Ids(before); }
    }
  }

  /** The default identity is the first URI whose first mention is unbarred, and "" if
      there is none. */
  lemma DefaultMeaning(xml: Xml, n: nat)
    ensures var w := Walk(xml.profiles);
            && (DefaultAt(w, n) ==> DefaultId(xml) == w[n].uri && DefaultId(xml) in PublicIds(xml))
            && ((forall m: nat :: !DefaultAt(w, m)) ==> DefaultId(xml) == "")
  {
    var w := Walk(xml.profiles);
    if Unbarred(w) != [] {
      var m := UnbarredHead(w);
      assert DefaultAt(w, n) ==> m == n;
    }
    if DefaultAt(w, n) {
      NoUnbarred(w, n);
      IdsMeaning(w);
    }
  }

  /** An unbarred first mention is collected. */
  lemma {:induction false} NoUnbarred(w: seq<Entry>, n: nat)
    requires FirstAt(w, n) && !w[n].barred
    ensures Unbarred(w) != []
  {
    var before := w[..|w| - 1];
    IdsMeaning(before);
    if n < |w| - 1 {
      assert FirstAt(before, n);
      NoUnbarred(before, n);
    }
  }

  // ------------------------------------------------------------- the document itself

  /** The m-th PublicIdentity of the n-th ServiceProfile has this URI. */
  ghost predicate Mentions(xml: Xml, n: nat, m: nat, u: string) {
    n < |xml.profiles| && m < |xml.profiles[n]| && xml.profiles[n][m].identity == Some(u)
  }

  /** Document order of two places. */
  predicate Earlier(n: nat, m: nat, n': nat, m': nat) {
    n < n' || (n == n' && m < m')
  }

  /** It is the first place in the document to have this URI. */
  ghost predicate FirstMentions(xml: Xml, n: nat, m: nat, u: string) {
    && Mentions(xml, n, m, u)
    && forall n': nat, m': nat :: Earlier(n', m', n, m) ==> !Mentions(xml, n', m', u)
  }

  /** It is the first place in the document that is a first mention and not barred. */
  ghost predicate DefaultMention(xml: Xml, n: nat, m: nat, u: string) {
    && FirstMentions(xml, n, m, u) && !xml.profiles[n][m].barred
    && forall n': nat, m': nat, v: string ::
         Earlier(n', m', n, m) && FirstMentions(xml, n', m', v) ==> xml.profiles[n'][m'].barred
  }

  /** How many identities come before a place. */
  function Position(ps: seq<seq<PublicIdentity>>, n: nat, m: nat): (k: nat)
    requires n < |ps| && m <= |ps[n]|
  {
    |Walk(ps[..n])| + |Profile(ps[n][..m])|
  }

  lemma {:induction false} ProfilePrefix(p: seq<PublicIdentity>, m: nat)
    requires m <= |p|
    ensures Profile(p[..m]) <= Profile(p)
    decreases |p| - m
  {
    if m == |p| {
      assert p[..m] == p;
    } else {
      ProfileSnoc([], p, m);
      assert [] + Profile(p[..m]) == Profile(p[..m]) && [] + Profile(p[..m + 1]) == Profile(p[..m + 1]);
      ProfilePrefix(p, m + 1);
    }
  }

  lemma {:induction false} WalkPrefix(ps: seq<seq<PublicIdentity>>, n: nat)
    requires n < |ps|
    ensures Walk(ps[..n]) + Profile(ps[n]) <= Walk(ps)
    decreases |ps| - n
  {
    assert ps[..n + 1][..n] == ps[..n];
    if n + 1 == |ps| {
      assert ps[..n + 1] == ps;
    } else {
      WalkPrefix(ps, n + 1);
    }
  }

  /** The walk has each identity of the document at its place. */
  lemma WalkHas(xml: Xml, n: nat, m: nat, u: string)
    requires Mentions(xml, n, m, u)
    ensures var ps, k := xml.profiles, Position(xml.profiles, n, m);
            k < |Walk(ps)| && Walk(ps)[k] == Entry(u, ps[n][m].barred)
  {
    var p := xml.profiles[n];
    WalkPrefix(xml.profiles, n);
    ProfilePrefix(p, m + 1);
    ProfileSnoc([], p, m);
    assert [] + Profile(p[..m]) == Profile(p[..m]) && [] + Profile(p[..m + 1]) == Profile(p[..m + 1]);
    var head := Walk(xml.profiles[..n]) + Profile(p);
    assert Profile(p)[|Profile(p[..m])|] == Entry(u, p[m].barred);
    assert head[Position(xml.profiles, n, m)] == Entry(u, p[m].barred);
  }

  /** And has nothing else. */
  lemma {:induction false} WalkFrom(ps: seq<seq<PublicIdentity>>, k: nat) returns (n: nat, m: nat)
    requires k < |Walk(ps)|
    ensures n < |ps| && m < |ps[n]| && ps[n][m].identity == Some(Walk(ps)[k].uri) && Position(ps, n, m) == k
  {
    var last := |ps| - 1;
    var before := ps[..last];
    if k < |Walk(before)| {
      n, m := WalkFrom(before, k);
      assert before[..n] == ps[..n];
    } else {
      n := last;
      m := ProfileFrom(ps[last], k - |Walk(before)|);
    }
  }

  lemma {:induction false} ProfileFrom(p: seq<PublicIdentity>, k: nat) returns (m: nat)
    requires k < |Profile(p)|
    ensures m < |p| && p[m].identity == Some(Profile(p)[k].uri) && |Profile(p[..m])| == k
  {
    var last := |p| - 1;
    var before := p[..last];
    if k < |Profile(before)| {
      m := ProfileFrom(before, k);
      assert before[..m] == p[..m];
    } else {
      m := last;
    }
  }

  /** Document order is the order of the walk. */
  lemma PositionOrder(xml: Xml, n: nat, m: nat, u: string, n': nat, m': nat)
    requires Mentions(xml, n, m, u) && n' < |xml.profiles| && m' <= |xml.profiles[n']|
    requires Earlier(n, m, n', m')
    ensures Position(xml.profiles, n, m) < Position(xml.profiles, n', m')
  {
    var ps := xml.profiles;
    if n < n' {
      var front := ps[..n'];
      assert front[..n] == ps[..n];
      WalkPrefix(front, n);
      ProfilePrefix(ps[n], m + 1);
    } else {
      assert ps[n][..m'][..m + 1] == ps[n][..m + 1];
      ProfilePrefix(ps[n][..m'], m + 1);
    }
    ProfileSnoc([], ps[n], m);
    assert [] + Profile(ps[n][..m]) == Profile(ps[n][..m]) && [] + Profile(ps[n][..m + 1]) == Profile(ps[n][..m + 1]);
  }

  /** Places in the document and in the walk are first mentions alike. */
  lemma FirstAlike(xml: Xml, n: nat, m: nat, u: string)
    requires Mentions(xml, n, m, u)
    ensures FirstMentions(xml, n, m, u) <==> FirstAt(Walk(xml.profiles), Position(xml.profiles, n, m))
  {
    var ps, w, k := xml.profiles, Walk(xml.profiles), Position(xml.profiles, n, m);
    WalkHas(xml, n, m, u);
    if FirstMentions(xml, n, m, u) {
      forall j | 0 <= j < k ensures w[j].uri != u {
        var n', m' := WalkFrom(ps, j);
        if w[j].uri == u {
          assert Mentions(xml, n', m', u);
          if !Earlier(n', m', n, m) && !(n' == n && m' == m) {
            PositionOrder(xml, n, m, u, n', m');
          }
        }
      }
    }
    if FirstAt(w, k) {
      forall n': nat, m': nat | Earlier(n', m', n, m) && Mentions(xml, n', m', u) ensures false {
        WalkHas(xml, n', m', u);
        PositionOrder(xml, n', m', u, n, m);
      }
    }
  }

  /** The ids are exactly the URIs in the document. */
  lemma IdsOfDocument(xml: Xml, u: string)
    ensures u in PublicIds(xml) <==> exists n, m :: Mentions(xml, n, m, u)
  {
    var w := Walk(xml.profiles);
    IdsMeaning(w);
    if u in PublicIds(xml) {
      var k :| 0 <= k < |w| && w[k].uri == u;
      var n, m := WalkFrom(xml.profiles, k);
      assert Mentions(xml, n, m, u);
    }
    forall n: nat, m: nat | Mentions(xml, n, m, u) ensures u in PublicIds(xml) {
      WalkHas(xml, n, m, u);
      assert w[Position(xml.profiles, n, m)].uri == u;
    }
  }

  /** They are in the order in which the document first mentions them. */
  lemma IdsInDocumentOrder(xml: Xml, i: nat, j: nat, n: nat, m: nat, n': nat, m': nat)
    requires i < j < |PublicIds(xml)|
    requires FirstMentions(xml, n, m, PublicIds(xml)[i]) && FirstMentions(xml, n', m', PublicIds(xml)[j])
    ensures Earlier(n, m, n', m')
  {
    var w, ps := Walk(xml.profiles), xml.profiles;
    var a, b := PublicIds(xml)[i], PublicIds(xml)[j];
    IdsOrder(w, i, j);
    FirstAlike(xml, n, m, a);
    FirstAlike(xml, n', m', b);
    WalkHas(xml, n, m, a);
    WalkHas(xml, n', m', b);
    var p: nat, q: nat :| p < q && FirstAt(w, p) && FirstAt(w, q) && w[p].uri == a && w[q].uri == b;
    assert p == Position(ps, n, m) && q == Position(ps, n', m');
    if !Earlier(n, m, n', m') {
      if n == n' && m == m' {
        assert false;
      } else {
        PositionOrder(xml, n', m', b, n, m);
      }
    }
  }

  /** The default is the first URI of the document whose first mention is not barred, and ""
      if there is none. */
  lemma DefaultOfDocument(xml: Xml)
    ensures forall n, m, u :: DefaultMention(xml, n, m, u) ==> DefaultId(xml) == u
    ensures (forall n, m, u :: !DefaultMention(xml, n, m, u)) ==> DefaultId(xml) == ""
  {
    var w, ps := Walk(xml.profiles), xml.profiles;
    forall n: nat, m: nat, u | DefaultMention(xml, n, m, u) ensures DefaultId(xml) == u {
      var k := Position(ps, n, m);
      WalkHas(xml, n, m, u);
      FirstAlike(xml, n, m, u);
      forall j: nat | j < k && FirstAt(w, j) ensures w[j].barred {
        var n', m' := WalkFrom(ps, j);
        var v := w[j].uri;
        WalkHas(xml, n', m', v);
        FirstAlike(xml, n', m', v);
        if !Earlier(n', m', n, m) && !(n' == n && m' == m) {
          PositionOrder(xml, n, m, u, n', m');
        }
      }
      DefaultMeaning(xml, k);
    }
    if DefaultId(xml) != "" {
      var k := UnbarredHead(w);
      var n, m := WalkFrom(ps, k);
      var u := w[k].uri;
      WalkHas(xml, n, m, u);
      FirstAlike(xml, n, m, u);
      forall n': nat, m': nat, v: string | Earlier(n', m', n, m) && FirstMentions(xml, n', m', v)
        ensures ps[n'][m'].barred
      {
        WalkHas(xml, n', m', v);
        FirstAlike(xml, n', m', v);
        PositionOrder(xml, n', m', v, n, m);
      }
      assert DefaultMention(xml, n, m, u);
    }
  }
}
