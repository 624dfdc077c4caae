/** A model of the `persist` range adaptor: a view that takes ownership of a
    temporary (non-viewable) range by moving it into shared heap storage, so
    that copies of the view alias one stored range and every traversal is
    re-derived from it. */
module Persist {

  // ---------------------------------------------------------------------------
  //  Shared storage and iterators
  // ---------------------------------------------------------------------------

  /** The heap object a view's shared pointer refers to: the moved-in range. */
  class Storage<T> {
    var elems: seq<T>

    constructor (s: seq<T>)
      ensures elems == s
    {
      elems := s;
    }
  }

  /** An iterator of the stored range: which storage it walks and the
      position it is at (`pos == |store.elems|` is the past-the-end position). */
  datatype Iterator<T> = Iterator(store: Storage<T>, pos: nat)

  /** The iterator is dereferenceable or past-the-end of its storage. */
  ghost predicate InRange<T>(it: Iterator<T>)
    reads it.store
  {
    it.pos <= |it.store.elems|
  }

  /** `*it` */
  function Deref<T>(it: Iterator<T>): (x: T)
    reads it.store
    requires it.pos < |it.store.elems|
    ensures x in it.store.elems
  {
    it.store.elems[it.pos]
  }

  /** `++it` */
  function Next<T>(it: Iterator<T>): Iterator<T>
    reads it.store
    requires it.pos < |it.store.elems|
  {
    Iterator(it.store, it.pos + 1)
  }

  /** `it + n`, the random-access step that subscripting a view goes through. */
  function Plus<T>(it: Iterator<T>, n: nat): Iterator<T>
    reads it.store
    requires it.pos + n <= |it.store.elems|
  {
    Iterator(it.store, it.pos + n)
  }

  /** `n` successive increments, `++it` applied `n` times. */
  function Advance<T>(it: Iterator<T>, n: nat): Iterator<T>
    reads it.store
    requires it.pos + n <= |it.store.elems|
    decreases n
  {
    if n == 0 then it else Advance(Next(it), n - 1)
  }

  /** The random-access law: `it + n` reaches the same position as `n`
      increments, so subscripting and stepping visit the same elements. */
  lemma {:induction false} PlusIsRepeatedNext<T>(it: Iterator<T>, n: nat)
    requires it.pos + n <= |it.store.elems|
    ensures Plus(it, n) == Advance(it, n)
    decreases n
  {
    if n > 0 {
      PlusIsRepeatedNext(Next(it), n - 1);
    }
  }

  /** `*it = x`: the stored range is an output range whenever the moved-in
      range is one, and writes go to the shared storage. */
  method Store<T>(it: Iterator<T>, x: T)
    requires it.pos < |it.store.elems|
    modifies it.store
    ensures it.store.elems == old(it.store.elems)[it.pos := x]
  {
    it.store.elems := it.store.elems[it.pos := x];
  }

  /** What a traversal `for (; first != last; ++first) … *first …` visits. */
  function Walk<T>(first: Iterator<T>, last: Iterator<T>): seq<T>
    reads first.store
    requires first.store == last.store && first.pos <= last.pos <= |first.store.elems|
    decreases last.pos - first.pos
  {
    if first == last then [] else [Deref(first)] + Walk(Next(first), last)
  }

  /** Walking `[first, last)` visits exactly the stored elements between the
      two positions, in storage order. */
  lemma {:induction false} WalkIsSlice<T>(first: Iterator<T>, last: Iterator<T>)
    requires first.store == last.store && first.pos <= last.pos <= |first.store.elems|
    ensures Walk(first, last) == first.store.elems[first.pos..last.pos]
    decreases last.pos - first.pos
  {
    if first != last {
      WalkIsSlice(Next(first), last);
    }
  }

  // ---------------------------------------------------------------------------
  //  view_persist
  // ---------------------------------------------------------------------------

  /** The view returned for non-viewable rvalue ranges. Its only state is the
      shared pointer `urange`; `null` is the empty pointer that a
      default-constructed or moved-from view holds. */
  class ViewPersist<T> {
    var urange: Storage?<T>

    /** The elements the view presents: those of the shared storage. */
    function Elements(): seq<T>
      reads this, urange
      requires urange != null
    {
      urange.elems
    }

    /** Defaulted default constructor: the shared pointer is empty. */
    constructor Default()
      ensures urange == null
    {
      urange := null;
    }

    /** Construction from an rvalue range: the range is moved into a freshly
        allocated storage object. */
    constructor (s: seq<T>)
      ensures urange != null && fresh(urange)
      ensures Elements() == s
    {
      urange := new Storage(s);
    }

    /** Defaulted copy constructor: the copy shares the storage, no element
        is copied. */
    constructor Copy(rhs: ViewPersist<T>)
      ensures urange == rhs.urange
    {
      urange := rhs.urange;
    }

    /** Defaulted move constructor: the pointer is moved, leaving `rhs` empty. */
    constructor Move(rhs: ViewPersist<T>)
      modifies rhs
      ensures urange == old(rhs.urange)
      ensures rhs.urange == null
    {
      urange := rhs.urange;
      new;
      rhs.urange := null;
    }

    /** Defaulted copy assignment: afterwards both views share `rhs`'s storage. */
    method Assign(rhs: ViewPersist<T>)
      modifies this
      ensures urange == old(rhs.urange)
    {
      urange := rhs.urange;
    }

    /** Defaulted move assignment: the pointer is moved and `rhs` left empty,
        except that moving a view into itself leaves it as it was. */
    method MoveAssign(rhs: ViewPersist<T>)
      modifies this, rhs
      ensures urange == old(rhs.urange)
      ensures rhs != this ==> rhs.urange == null
    {
      var p := rhs.urange;
      rhs.urange := null;
      urange := p;
    }

    /** `begin()`: re-obtained from the shared storage on every call. */
    function Begin(): (it: Iterator<T>)
      reads this, urange
      requires urange != null
      ensures it.store == urange && it.pos == 0
      ensures Elements() != [] ==> it.pos < |urange.elems| && Deref(it) == Elements()[0]
    {
      Iterator(urange, 0)
    }

    /** `cbegin()`: the same position as `begin()`. */
    function CBegin(): (it: Iterator<T>)
      reads this, urange
      requires urange != null
      ensures it == Begin()
    {
      Begin()
    }

    /** `end()`: the position after the last stored element; it equals
        `begin()` exactly when the stored range is empty. */
    function End(): (it: Iterator<T>)
      reads this, urange
      requires urange != null
      ensures it.store == urange && InRange(it)
      ensures it.pos - Begin().pos == |Elements()|
      ensures it == Begin() <==> Elements() == []
      ensures forall k :: 0 <= k < it.pos ==> Elements()[k] == Deref(Plus(Begin(), k))
    {
      Iterator(urange, |urange.elems|)
    }

    /** `cend()`: the same position as `end()`. */
    function CEnd(): (it: Iterator<T>)
      reads this, urange
      requires urange != null
      ensures it == End()
    {
      End()
    }

    /** The size of the view, `end() - begin()`: the length of the stored range. */
    function Size(): (n: nat)
      reads this, urange
      requires urange != null
      ensures n == |Elements()|
    {
      End().pos - Begin().pos
    }

    /** Traversing `[begin(), end())` yields exactly the stored elements, in order. */
    lemma TraversalYieldsElements()
      requires urange != null
      ensures Walk(Begin(), End()) == Elements()
      ensures |Walk(Begin(), End())| == Size()
    {
      WalkIsSlice(Begin(), End());
    }

    /** Implicit conversion to a sequence container: the elements of
        `[begin(), end())` are appended one by one through a back inserter.
        The conversion is `const`: it changes nothing. */
    method ToContainer() returns (ret: seq<T>)
      requires urange != null
      ensures ret == Walk(Begin(), End()) == Elements()
      ensures |ret| == Size()
      ensures forall i :: 0 <= i < |ret| ==> ret[i] == Deref(Plus(Begin(), i))
    {
      ret := [];
      var it := Begin();
      var last := End();
      while it != last
        invariant it.store == urange && it.pos <= |urange.elems|
        invariant ret == urange.elems[..it.pos]
        decreases |urange.elems| - it.pos
      {
        ret := ret + [Deref(it)];
        it := Next(it);
      }
      TraversalYieldsElements();
    }
  }

  /** A view can be converted (or traversed) any number of times: each
      conversion starts again from the shared storage and yields the same
      container. */
  method ConvertTwice<T>(v: ViewPersist<T>) returns (first: seq<T>, second: seq<T>)
    requires v.urange != null
    ensures first == second == v.Elements()
  {
    first := v.ToContainer();
    second := v.ToContainer();
  }

  /** Copies alias: a write through an iterator of a copy is seen by the
      original, because neither holds its own elements. */
  method CopiesShareStorage<T>(v: ViewPersist<T>, x: T) returns (w: ViewPersist<T>)
    requires v.urange != null && v.Elements() != []
    modifies v.urange
    ensures w.urange == v.urange
    ensures v.Elements() == old(v.Elements())[0 := x]
    ensures w.Elements() == v.Elements()
  {
    w := new ViewPersist.Copy(v);
    Store(w.Begin(), x);
  }

  // ---------------------------------------------------------------------------
  //  persist_fn (adaptor dispatch)
  // ---------------------------------------------------------------------------

  /** A range handed to the adaptor: its elements, whether its type is a view,
      and whether it is passed as an lvalue reference. */
  datatype RangeArg<T> = RangeArg(elems: seq<T>, isView: bool, isLvalue: bool)

  /** A range is viewable when it is a view or an lvalue reference to a range. */
  predicate Viewable<T>(a: RangeArg<T>) {
    a.isView || a.isLvalue
  }

  /** Which overload of `persist_fn::impl` is chosen for an argument. */
  datatype Overload = DelegateToAll | ConstructPersist

  /** Whether an overload's template accepts the argument: the first `impl`
      is constrained by `ViewableRange`, the second only by `Range`, which
      every argument satisfies. */
  predicate Viable<T>(o: Overload, a: RangeArg<T>) {
    match o
    case DelegateToAll => Viewable(a)
    case ConstructPersist => true
  }

  /** Partial ordering by constraints: `ViewableRange` subsumes `Range`, so the
      first template is more constrained than the second and not conversely. */
  predicate MoreConstrained(o: Overload, other: Overload) {
    o == DelegateToAll && other == ConstructPersist
  }

  /** Overload resolution for `persist_fn::impl`: the chosen overload is viable,
      and it is more constrained than every other viable one. */
  function Select<T>(a: RangeArg<T>): (o: Overload)
    ensures Viable(o, a)
    ensures forall other :: Viable(other, a) && other != o ==> MoreConstrained(o, other)
  {
    if Viewable(a) then DelegateToAll else ConstructPersist
  }

  /** Overload resolution has one answer: an overload that is viable and more
      constrained than every other viable one is the one `Select` picks. */
  lemma SelectIsUnique<T>(a: RangeArg<T>, o: Overload)
    requires Viable(o, a)
    requires forall other :: Viable(other, a) && other != o ==> MoreConstrained(o, other)
    ensures o == Select(a)
  {
  }

  /** The wrapping overload is reached only by rvalues of non-view types, so
      its static assertion against lvalue references always holds; views and
      lvalues all go to `std::view::all`. */
  lemma WrappedOnlyNonViewRvalues<T>(a: RangeArg<T>)
    ensures Select(a) == ConstructPersist <==> !a.isView && !a.isLvalue
    ensures Select(a) == ConstructPersist ==> !a.isLvalue
  {
  }

  /** The range the adaptor returns: the argument handed to `std::view::all`
      unchanged, or a `view_persist` that owns the moved-in range. */
  datatype Adapted<T> = AllOf(range: RangeArg<T>) | Persisted(view: ViewPersist<T>)

  /** The adaptor's result seen as an argument to a further adaptor: it is
      always a view (`std::view::all` returns one, and `view_persist` is one),
      passed on as an rvalue, presenting the same elements. */
  function AsArg<T>(r: Adapted<T>): RangeArg<T>
    reads if r.Persisted? then {r.view} else {}
    reads if r.Persisted? && r.view.urange != null then {r.view.urange} else {}
    requires r.Persisted? ==> r.view.urange != null
  {
    match r
    case AllOf(x) => RangeArg(x.elems, true, false)
    case Persisted(v) => RangeArg(v.Elements(), true, false)
  }

  /** `persist_fn::impl`, for both overloads. */
  method Apply<T>(a: RangeArg<T>) returns (r: Adapted<T>)
    ensures r.AllOf? <==> Viewable(a)
    ensures r.AllOf? ==> r.range == a
    ensures r.Persisted? ==> fresh(r.view) && r.view.urange != null && fresh(r.view.urange)
    ensures r.Persisted? ==> r.view.Elements() == a.elems && r.view.Size() == |a.elems|
    ensures AsArg(r).isView && AsArg(r).elems == a.elems
  {
    match Select(a)
    case DelegateToAll =>
      r := AllOf(a);
    case ConstructPersist =>
      var v := new ViewPersist(a.elems);
      r := Persisted(v);
  }

  /** Persisting a persisted range again allocates nothing more: the result
      is a view, so the second application delegates to `std::view::all` and
      yields the same elements. */
  method PersistTwice<T>(a: RangeArg<T>) returns (once: Adapted<T>, twice: Adapted<T>)
    ensures twice.AllOf?
    ensures twice.range.elems == a.elems
    ensures once.Persisted? ==> once.view.urange != null && once.view.Elements() == a.elems
  {
    once := Apply(a);
    twice := Apply(AsArg(once));
  }
}
