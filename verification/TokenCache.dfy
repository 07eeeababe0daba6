/** The conversation-token cache as the client builds it: a map of pointers into a
    doubly linked list in recency order (`client.go`; the list operations are those
    of Go's `container/list`, a ring through a sentinel element). */
module TokenCache {
  import opened Recency

  class Element {
    var next: Element?
    var prev: Element?
    var value: Entry

    constructor (value: Entry)
      ensures this.value == value
    {
      this.value := value;
      next, prev := null, null;
    }
  }

  /** The sequence without its element at k. */
  function Dropped<T>(s: seq<T>, k: nat): seq<T>
    requires k < |s|
  {
    s[..k] + s[k + 1..]
  }

  /** The sequence with its element at k moved to the front. */
  function ToFront<T>(s: seq<T>, k: nat): seq<T>
    requires k < |s|
  {
    [s[k]] + Dropped(s, k)
  }

  /** The same, with a new value in the front. */
  function Renewed<T>(value: T, s: seq<T>, k: nat): seq<T>
    requires k < |s|
  {
    [value] + Dropped(s, k)
  }

  /** The elements hold the given values. */
  ghost predicate Holds(es: seq<Element>, vs: seq<Entry>)
    reads es`value
  {
    |es| == |vs| && forall i :: 0 <= i < |vs| ==> es[i].value == vs[i]
  }

  lemma HoldsWithout(es: seq<Element>, vs: seq<Entry>, k: nat)
    requires Holds(es, vs) && k < |es|
    ensures Holds(Dropped(es, k), Dropped(vs, k))
  {}

  lemma HoldsToFront(es: seq<Element>, vs: seq<Entry>, k: nat)
    requires Holds(es, vs) && k < |es|
    ensures Holds(ToFront(es, k), ToFront(vs, k))
  {}

  lemma FirstToFront<T>(s: seq<T>)
    requires s != []
    ensures ToFront(s, 0) == s
  {}

  lemma HoldsFront(e: Element, es: seq<Element>, vs: seq<Entry>)
    requires Holds(es, vs)
    ensures Holds([e] + es, [e.value] + vs)
  {}

  class List {
    const root: Element
    var len: nat
    ghost var elements: seq<Element>
    /** The values of the elements, front to back. */
    ghost var values: seq<Entry>

    ghost predicate Valid()
      reads this, root, elements
    {
      && Ring(elements)
      && len == |elements|
      && Holds(elements, values)
    }

    /** The links run through the sentinel and the given elements, both ways. */
    ghost predicate Ring(es: seq<Element>)
      reads root, es
    {
      var n := |es|;
      && root !in es
      && (forall i, j :: 0 <= i < j < n ==> es[i] != es[j])
      && (n == 0 ==> root.next == root && root.prev == root)
      && (n > 0 ==> root.next == es[0] && es[0].prev == root)
      && (n > 0 ==> root.prev == es[n - 1] && es[n - 1].next == root)
      && (forall i {:trigger es[i].next} :: 0 <= i < n - 1 ==> es[i].next == es[i + 1])
      && (forall i {:trigger es[i].prev} :: 1 <= i < n ==> es[i].prev == es[i - 1])
    }

    constructor ()
      ensures Valid() && values == [] && fresh(root)
    {
      root := new Element(Entry("", ""));
      len, elements, values := 0, [], [];
      new;
      root.next, root.prev := root, root;
    }

    /** Takes an element out of the ring. */
    method Unlink(e: Element, ghost es: seq<Element>, ghost k: nat)
      requires Ring(es) && k < |es| && es[k] == e
      modifies root`next, root`prev, es`next, es`prev
      ensures Ring(Dropped(es, k))
    {
      e.prev.next := e.next;
      e.next.prev := e.prev;
    }

    /** Puts an element into the ring just after the sentinel. */
    method LinkFront(e: Element, ghost es: seq<Element>)
      requires Ring(es) && e !in es && e != root
      modifies root`next, root`prev, es`next, es`prev, e`next, e`prev
      ensures Ring([e] + es)
    {
      e.prev := root;
      e.next := root.next;
      e.prev.next := e;
      e.next.prev := e;
    }

    method PushFront(value: Entry) returns (e: Element)
      requires Valid()
      modifies this, root, elements
      ensures Valid() && fresh(e)
      ensures elements == [e] + old(elements) && values == [value] + old(values)
    {
      e := new Element(value);
      LinkFront(e, elements);
      len := len + 1;
      HoldsFront(e, elements, values);
      elements, values := [e] + elements, [value] + values;
    }

    method Remove(e: Element, ghost k: nat)
      requires Valid() && k < |elements| && elements[k] == e
      modifies this, root, elements
      ensures Valid()
      ensures elements == Dropped(old(elements), k)
      ensures values == Dropped(old(values), k)
    {
      ghost var rest := Dropped(elements, k);
      assert e !in rest;
      HoldsWithout(elements, values, k);
      Unlink(e, elements, k);
      e.next, e.prev := null, null;
      len := len - 1;
      Keep(rest, Dropped(values, k));
    }

    method MoveToFront(e: Element, ghost k: nat)
      requires Valid() && k < |elements| && elements[k] == e
      modifies this, root, elements
      ensures Valid()
      ensures elements == ToFront(old(elements), k)
      ensures values == ToFront(old(values), k)
      ensures e.value == old(e.value)
    {
      if root.next == e {
        assert k == 0;
        FirstToFront(elements);
        FirstToFront(values);
        return;
      }
      HoldsToFront(elements, values, k);
      Move(e, elements, k);
      Keep(ToFront(elements, k), ToFront(values, k));
    }

    /** Notes down what the ring has become. */
    ghost method Keep(es: seq<Element>, vs: seq<Entry>)
      requires Ring(es) && Holds(es, vs) && len == |es|
      modifies this`elements, this`values
      ensures Valid() && elements == es && values == vs
    {
      elements, values := es, vs;
    }

    /** Relinks an element of the ring just after the sentinel. */
    method Move(e: Element, ghost es: seq<Element>, ghost k: nat)
      requires Ring(es) && k < |es| && es[k] == e
      modifies root`next, root`prev, es`next, es`prev
      ensures Ring(ToFront(es, k))
    {
      ghost var rest := Dropped(es, k);
      assert e !in rest;
      Unlink(e, es, k);
      LinkFront(e, rest);
    }

    /** `entry.Value = value` */
    method Store(e: Element, value: Entry, ghost k: nat)
      requires Valid() && k < |elements| && elements[k] == e
      modifies this`values, e`value
      ensures Valid() && elements == old(elements)
      ensures values == old(values)[k := value]
    {
      e.value := value;
      values := values[k := value];
    }

    /** Stores a new value in an element and moves it to the front. */
    method Renew(e: Element, value: Entry, ghost k: nat)
      requires Valid() && k < |elements| && elements[k] == e
      modifies this, root, elements
      ensures Valid()
      ensures elements == ToFront(old(elements), k)
      ensures values == Renewed(value, old(values), k)
    {
      Store(e, value, k);
      MoveToFront(e, k);
    }

    method Back() returns (e: Element)
      requires Valid() && elements != []
      ensures e == elements[|elements| - 1] && e.value == values[|values| - 1]
    {
      e := root.prev;
    }
  }

  // ----- the map into the list, as a fact about values

  /** The keys are the users of the entries, each pointing to its element. */
  ghost predicate Indexed(tokens: map<string, Element>, es: seq<Element>, c: seq<Entry>) {
    && |es| == |c|
    && tokens.Keys == UsersOf(c)
    && Points(tokens, es, c)
  }

  ghost predicate Points(tokens: map<string, Element>, es: seq<Element>, c: seq<Entry>)
    requires |es| == |c|
  {
    c == [] ||
    (c[0].user in tokens && tokens[c[0].user] == es[0] && Points(tokens, es[1..], c[1..]))
  }

  lemma {:induction false} PointsIff(tokens: map<string, Element>, es: seq<Element>, c: seq<Entry>)
    requires |es| == |c|
    ensures Points(tokens, es, c) <==>
            forall i :: 0 <= i < |c| ==> c[i].user in tokens && tokens[c[i].user] == es[i]
  {
    if c != [] {
      PointsIff(tokens, es[1..], c[1..]);
      if Points(tokens, es, c) {
        forall i | 0 <= i < |c| ensures c[i].user in tokens && tokens[c[i].user] == es[i] {
          assert i > 0 ==> c[i] == c[1..][i - 1] && es[i] == es[1..][i - 1];
        }
      } else if c[0].user in tokens && tokens[c[0].user] == es[0] {
        var i :| 0 <= i < |c| - 1 && !(c[1..][i].user in tokens && tokens[c[1..][i].user] == es[1..][i]);
        assert c[i + 1] == c[1..][i] && es[i + 1] == es[1..][i];
      }
    }
  }

  lemma IndexedAt(tokens: map<string, Element>, es: seq<Element>, c: seq<Entry>, user: string) returns (k: nat)
    requires Indexed(tokens, es, c) && Distinct(c) && user in tokens
    ensures k < |c| && c[k].user == user && es[k] == tokens[user]
    ensures Without(c, user) == Dropped(c, k)
    ensures Cached(c, user) && Lookup(c, user) == c[k].token
  {
    CachedMeansPresent(c, user);
    k :| 0 <= k < |c| && c[k].user == user;
    WithoutAt(c, k);
    PointsIff(tokens, es, c);
  }

  lemma NotIndexed(tokens: map<string, Element>, es: seq<Element>, c: seq<Entry>, user: string)
    requires Indexed(tokens, es, c) && Distinct(c) && user !in tokens
    ensures Without(c, user) == c && !Cached(c, user) && Lookup(c, user) == ""
  {
    WithoutFacts(c, user);
    LookupIsMember(c, user);
  }

  lemma IndexedInsert(tokens: map<string, Element>, es: seq<Element>, c: seq<Entry>, e: Element, entry: Entry)
    requires Indexed(tokens, es, c) && entry.user !in tokens
    ensures Indexed(tokens[entry.user := e], [e] + es, [entry] + c)
  {
    assert ([entry] + c)[1..] == c && ([e] + es)[1..] == es;
    PointsIff(tokens, es, c);
    PointsIff(tokens[entry.user := e], es, c);
    PresentUsers(c);
  }

  lemma PresentUsers(c: seq<Entry>)
    ensures forall i :: 0 <= i < |c| ==> c[i].user in UsersOf(c)
  {
    forall i | 0 <= i < |c| ensures Cached(c, c[i].user) {
      CachedMeansPresent(c, c[i].user);
    }
  }

  /** No element is new. */
  ghost predicate Among(es: seq<Element>, known: seq<Element>) {
    forall e <- es :: e in known
  }

  lemma AmongAt(es: seq<Element>, k: nat)
    requires k < |es|
    ensures Among(Dropped(es, k), es) && Among(ToFront(es, k), es)
  {}

  lemma UsersWithout(c: seq<Entry>, k: nat)
    requires Distinct(c) && k < |c|
    ensures UsersOf(Dropped(c, k)) == UsersOf(c) - {c[k].user}
  {
    WithoutAt(c, k);
    WithoutFacts(c, c[k].user);
  }

  lemma OthersDiffer(c: seq<Entry>, k: nat, i: nat)
    requires Distinct(c) && k < |c| && i < |c| && i != k
    ensures c[i].user != c[k].user
  {
    WithoutAt(c, k);
    WithoutFacts(c, c[k].user);
    var rest := Dropped(c, k);
    assert rest[if i < k then i else i - 1] == c[i];
  }

  lemma IndexedRemove(tokens: map<string, Element>, es: seq<Element>, c: seq<Entry>, k: nat)
    requires Indexed(tokens, es, c) && Distinct(c) && k < |c|
    ensures Indexed(tokens - {c[k].user}, Dropped(es, k), Dropped(c, k))
  {
    var rest := Dropped(c, k);
    UsersWithout(c, k);
    PointsIff(tokens, es, c);
    PointsIff(tokens - {c[k].user}, Dropped(es, k), rest);
    forall i | 0 <= i < |rest|
      ensures rest[i].user in tokens && rest[i].user != c[k].user
      ensures tokens[rest[i].user] == Dropped(es, k)[i]
    {
      var j := if i < k then i else i + 1;
      OthersDiffer(c, k, j);
      assert rest[i] == c[j];
    }
  }

  lemma IndexedFront(tokens: map<string, Element>, es: seq<Element>, c: seq<Entry>, k: nat, token: string)
    requires Indexed(tokens, es, c) && Distinct(c) && k < |c|
    ensures Indexed(tokens, ToFront(es, k), Renewed(Entry(c[k].user, token), c, k))
  {
    var entry := Entry(c[k].user, token);
    IndexedRemove(tokens, es, c, k);
    IndexedInsert(tokens - {c[k].user}, Dropped(es, k), Dropped(c, k), es[k], entry);
    PointsIff(tokens, es, c);
    assert (tokens - {c[k].user})[entry.user := es[k]] == tokens;
  }

  /** Setting or reading the token of a cached user. */
  lemma UseKnown(
    capacity: nat, tokens: map<string, Element>, es: seq<Element>, c: seq<Entry>, user: string, token: string)
    returns (k: nat, c': seq<Entry>)
    requires Indexed(tokens, es, c) && WellFormed(capacity, c) && user in tokens && token != ""
    ensures k < |c| && es[k] == tokens[user] && c[k] == Entry(user, Lookup(c, user))
    ensures c' == Renewed(Entry(user, token), c, k)
    ensures Indexed(tokens, ToFront(es, k), c') && WellFormed(capacity, c')
    ensures c' == [Entry(user, token)] + Without(c, user) && |c'| <= capacity
    ensures token == Lookup(c, user) ==> c' == Touch(c, user) == ToFront(c, k)
  {
    k := IndexedAt(tokens, es, c, user);
    c' := Renewed(Entry(user, token), c, k);
    assert c[k] in c;
    UseAt(capacity, c, k, token);
    IndexedFront(tokens, es, c, k, token);
  }

  lemma TokenOfKnown(capacity: nat, tokens: map<string, Element>, es: seq<Element>, c: seq<Entry>, user: string)
    requires Indexed(tokens, es, c) && WellFormed(capacity, c) && user in tokens
    ensures Lookup(c, user) != ""
  {
    var k := IndexedAt(tokens, es, c, user);
    assert c[k] in c;
  }

  lemma ForgetKnown(capacity: nat, tokens: map<string, Element>, es: seq<Element>, c: seq<Entry>, user: string)
    returns (k: nat, c': seq<Entry>)
    requires Indexed(tokens, es, c) && WellFormed(capacity, c) && user in tokens
    ensures k < |c| && es[k] == tokens[user]
    ensures c' == Dropped(c, k) == Without(c, user)
    ensures Indexed(tokens - {user}, Dropped(es, k), c') && WellFormed(capacity, c')
  {
    k := IndexedAt(tokens, es, c, user);
    c' := Dropped(c, k);
    assert c[k] in c;
    UseAt(capacity, c, k, c[k].token);
    IndexedRemove(tokens, es, c, k);
  }

  class Cache {
    const capacity: nat
    const lru: List
    var ctxTokens: map<string, Element>

    ghost predicate Valid()
      reads this, lru, lru.root, lru.elements
    {
      && lru.Valid()
      && capacity > 0
      && Indexed(ctxTokens, lru.elements, Entries())
      && WellFormed(capacity, Entries())
    }

    /** The cache as a sequence, most recently used first. */
    ghost function Entries(): seq<Entry>
      reads lru
    {
      lru.values
    }

    constructor (capacity: nat)
      requires capacity > 0
      ensures Valid() && Entries() == [] && this.capacity == capacity
      ensures fresh(lru) && fresh(lru.root)
    {
      this.capacity := capacity;
      lru := new List();
      ctxTokens := map[];
    }

    method SetContextToken(chatID: string, token: string)
      requires Valid()
      modifies this, lru, lru.root, lru.elements
      ensures Valid()
      ensures Entries() == SetToken(capacity, old(Entries()), chatID, token)
      ensures forall e <- lru.elements :: e in old(lru.elements) || fresh(e)
    {
      if token == "" {
        ForgetContextToken(chatID);
        return;
      }
      if chatID == "" {
        return;
      }
      if chatID in ctxTokens {
        Refresh(chatID, token);
      } else {
        Insert(chatID, token);
      }
    }

    /** A new user: the element goes to the front, and the oldest may have to go. */
    method Insert(chatID: string, token: string)
      requires Valid() && chatID !in ctxTokens && chatID != "" && token != ""
      modifies this, lru, lru.root, lru.elements
      ensures Valid()
      ensures Entries() == SetToken(capacity, old(Entries()), chatID, token)
      ensures forall e <- lru.elements :: e in old(lru.elements) || fresh(e)
    {
      ghost var c := Entries();
      ApplyWellFormed(capacity, c, Set(chatID, token));
      NotIndexed(ctxTokens, lru.elements, c, chatID);
      FrontWellFormed(c, chatID, token);
      PushNew(chatID, token);
      if lru.len > capacity {
        EvictOldest();
      }
    }

    /** A new element at the front, perhaps one too many. */
    method PushNew(chatID: string, token: string)
      requires lru.Valid() && Indexed(ctxTokens, lru.elements, Entries()) && chatID !in ctxTokens
      modifies this, lru, lru.root, lru.elements
      ensures lru.Valid() && Indexed(ctxTokens, lru.elements, Entries())
      ensures Entries() == [Entry(chatID, token)] + old(Entries())
      ensures |lru.elements| > 0 && fresh(lru.elements[0]) && lru.elements[1..] == old(lru.elements)
    {
      ghost var tokens, es, c := ctxTokens, lru.elements, Entries();
      var entry := Entry(chatID, token);
      var e := lru.PushFront(entry);
      ctxTokens := ctxTokens[chatID := e];
      assert Indexed(tokens[entry.user := e], [e] + es, [entry] + c) by {
        IndexedInsert(tokens, es, c, e, entry);
      }
      assert lru.elements[1..] == es;
    }

    /** A known user: the element gets the new value and moves to the front. */
    method Refresh(chatID: string, token: string)
      requires Valid() && chatID in ctxTokens && chatID != "" && token != ""
      modifies lru, lru.root, lru.elements
      ensures Valid()
      ensures Entries() == [Entry(chatID, token)] + Without(old(Entries()), chatID) && |Entries()| <= capacity
      ensures Among(lru.elements, old(lru.elements))
    {
      ghost var es, c := lru.elements, Entries();
      var entry := ctxTokens[chatID];
      ghost var k, c' := UseKnown(capacity, ctxTokens, es, c, chatID, token);
      AmongAt(es, k);
      lru.Renew(entry, Entry(chatID, token), k);
      assert Entries() == c';
    }

    /** The list has outgrown the capacity: its last element leaves. */
    method EvictOldest()
      requires lru.Valid() && Indexed(ctxTokens, lru.elements, Entries())
      requires Distinct(Entries()) && Entries() != []
      modifies this, lru, lru.root, lru.elements
      ensures lru.Valid() && Indexed(ctxTokens, lru.elements, Entries())
      ensures Entries() == old(Entries()[..|Entries()| - 1])
      ensures lru.elements == old(lru.elements[..|lru.elements| - 1])
    {
      ghost var es, c := lru.elements, Entries();
      var oldest := lru.Back();
      IndexedRemove(ctxTokens, es, c, |c| - 1);
      ctxTokens := ctxTokens - {oldest.value.user};
      lru.Remove(oldest, |c| - 1);
      assert Entries() == c[..|c| - 1] && lru.elements == es[..|es| - 1];
    }

    method ContextToken(chatID: string) returns (token: string)
      requires Valid()
      modifies lru, lru.root, lru.elements
      ensures Valid()
      ensures token == Lookup(old(Entries()), chatID)
      ensures Entries() == Touch(old(Entries()), chatID)
      ensures Among(lru.elements, old(lru.elements))
    {
      if chatID in ctxTokens {
        token := Use(chatID);
      } else {
        NotIndexed(ctxTokens, lru.elements, Entries(), chatID);
        token := "";
      }
    }

    /** A hit: the element moves to the front. */
    method Use(chatID: string) returns (token: string)
      requires Valid() && chatID in ctxTokens
      modifies lru, lru.root, lru.elements
      ensures Valid()
      ensures token == Lookup(old(Entries()), chatID)
      ensures Entries() == Touch(old(Entries()), chatID)
      ensures Among(lru.elements, old(lru.elements))
    {
      ghost var es, c := lru.elements, Entries();
      ghost var found := Lookup(c, chatID);
      var entry := ctxTokens[chatID];
      TokenOfKnown(capacity, ctxTokens, es, c, chatID);
      ghost var k, c' := UseKnown(capacity, ctxTokens, es, c, chatID, found);
      assert entry.value.token == found;
      AmongAt(es, k);
      lru.MoveToFront(entry, k);
      assert Entries() == c';
      token := entry.value.token;
    }

    method ForgetContextToken(chatID: string)
      requires Valid()
      modifies this, lru, lru.root, lru.elements
      ensures Valid()
      ensures Entries() == Without(old(Entries()), chatID)
      ensures Among(lru.elements, old(lru.elements))
    {
      ghost var es, c := lru.elements, Entries();
      if chatID in ctxTokens {
        Discard(chatID);
      } else {
        NotIndexed(ctxTokens, es, c, chatID);
      }
    }

    /** A known user: key and element leave. */
    method Discard(chatID: string)
      requires Valid() && chatID in ctxTokens
      modifies this, lru, lru.root, lru.elements
      ensures Valid()
      ensures Entries() == Without(old(Entries()), chatID)
      ensures Among(lru.elements, old(lru.elements))
    {
      ghost var es, c := lru.elements, Entries();
      var entry := ctxTokens[chatID];
      ghost var k, c' := ForgetKnown(capacity, ctxTokens, es, c, chatID);
      ctxTokens := ctxTokens - {chatID};
      AmongAt(es, k);
      lru.Remove(entry, k);
      assert lru.elements == Dropped(es, k) && Entries() == c';
    }
  }
}
