# persist — a Dafny model of SeqAn3's `view::persist`

`view::persist` turns a range into a view. A viewable range (a view, or an
lvalue reference to a range) is handed to `std::view::all` unchanged. A
temporary of a non-view type, such as a container or a file object returned by
value, is wrapped in `view_persist`. That class moves the range into heap
storage owned through a `std::shared_ptr`. Copying the view is then cheap: every
copy holds the same pointer. Every `begin()`/`end()` is re-derived from the
shared storage.

The model is one module, `Persist` (`persist.dfy`):

- `Storage<T>` is the heap object behind the shared pointer. It holds the
  moved-in range as a sequence of elements.
- `Iterator<T>` is a position in a storage object. `Deref`, `Next`, `Plus` and
  `Store` are `*it`, `++it`, `it + n` and `*it = x`. `Advance` is `n`
  successive `++it`. `Walk(first, last)` is what
  a `for (; first != last; ++first)` traversal visits.
- `ViewPersist<T>` is a class with the single field `urange: Storage?<T>`.
  `null` is the empty shared pointer of a default-constructed or moved-from
  view. The class has:
  - the defaulted constructors and assignments;
  - the constructor from an rvalue range;
  - `Begin`/`CBegin`/`End`/`CEnd` and `Size`;
  - the implicit conversion to a container, `ToContainer`, which is a
    back-inserter loop.
- `RangeArg`, `Viewable`, `Viable`, `MoreConstrained`, `Select` and `Apply`
  model the two overloads of `persist_fn::impl` and their overload resolution.
  `AsArg` describes the adaptor's result when it is handed to a further
  adaptor.

`persist` does not make a single-pass range restartable. `begin()`
(persist.hpp:107-110) delegates to the stored range's own `begin()`, so the
stored range's traversal category is preserved, not strengthened
(persist.hpp:236-246). The model stores a sequence, which is a multi-pass
range, and proves repeatable traversal for that case.

## Model

| member | source | states |
|---|---|---|
| Persist.ViewPersist.constructor | include/seqan3/range/view/persist.hpp:86-88 | constructing from an rvalue range allocates fresh storage whose elements are exactly the given range's, in order (for element types not constructible from the range itself; see Left out) |
| Persist.ViewPersist.Default | include/seqan3/range/view/persist.hpp:76 | a default-constructed view holds an empty shared pointer |
| Persist.ViewPersist.Copy | include/seqan3/range/view/persist.hpp:77 | a copy holds the same storage object as the original; no element is copied |
| Persist.ViewPersist.Move | include/seqan3/range/view/persist.hpp:78 | a move-constructed view takes over the storage and leaves the source with an empty pointer |
| Persist.ViewPersist.Assign | include/seqan3/range/view/persist.hpp:79 | after copy assignment the target shares the right-hand side's storage |
| Persist.ViewPersist.MoveAssign | include/seqan3/range/view/persist.hpp:80 | move assignment transfers the storage and empties the source, except for self-move, which changes nothing |
| Persist.ViewPersist.Begin | include/seqan3/range/view/persist.hpp:107-110 | begin() is an iterator to position 0 of the shared storage; on a non-empty view it dereferences to the first stored element |
| Persist.ViewPersist.CBegin | include/seqan3/range/view/persist.hpp:112-116 | cbegin() is the same position as begin() |
| Persist.ViewPersist.End | include/seqan3/range/view/persist.hpp:94-134 | end() is in the same storage, exactly size-of-the-stored-range positions after begin(); it equals begin() exactly when the stored range is empty; every position before it dereferences to the stored element at that index |
| Persist.ViewPersist.CEnd | include/seqan3/range/view/persist.hpp:136-140 | cend() is the same position as end() |
| Persist.ViewPersist.Size | include/seqan3/range/view/persist.hpp:63-64 | the view's size, end() - begin(), equals the length of the underlying range |
| Persist.WalkIsSlice | include/seqan3/range/view/persist.hpp:107-134 | a ++-traversal of [first, last) visits exactly the stored elements between the two positions, in order |
| Persist.ViewPersist.TraversalYieldsElements | include/seqan3/range/view/persist.hpp:94-134 | traversing [begin(), end()) yields exactly the stored elements, in order, and as many as size() |
| Persist.ViewPersist.ToContainer | include/seqan3/range/view/persist.hpp:148-157 | the container conversion returns the traversal of [begin(), end()), i.e. the view's elements in order; its length is size() and its i-th element is *(begin() + i); it changes no state |
| Persist.ConvertTwice | include/seqan3/range/view/persist.hpp:148-157 | converting the same view twice gives equal containers, both equal to the view's elements |
| Persist.CopiesShareStorage | include/seqan3/range/view/persist.hpp:77-80 | a write through an iterator of a copy is visible in the original, because both views alias one storage |
| Persist.Store | include/seqan3/range/view/persist.hpp:68-70 | writing through a view iterator updates that one position of the shared storage and nothing else there |
| Persist.Select | include/seqan3/range/view/persist.hpp:185-202 | the chosen overload of impl is viable for the argument (ViewableRange for the first template, Range for the second) and more constrained than every other viable overload |
| Persist.SelectIsUnique | include/seqan3/range/view/persist.hpp:185-202 | overload resolution is unambiguous: any viable overload more constrained than all other viable ones is the one Select picks |
| Persist.WrappedOnlyNonViewRvalues | include/seqan3/range/view/persist.hpp:194-201 | derived from the resolution rule: the wrapping overload is chosen exactly for rvalues of non-view types, so its lvalue static assertion always holds |
| Persist.PlusIsRepeatedNext | include/seqan3/range/view/persist.hpp:67-70 | the view's random-access iterator satisfies it + n == n applications of ++it |
| Persist.Apply | include/seqan3/range/view/persist.hpp:185-202 | a viewable range is returned unchanged for std::view::all; any other range is moved into a freshly allocated view_persist with the same elements and size; either result is a view presenting the argument's elements |
| Persist.PersistTwice | include/seqan3/range/view/persist.hpp:218-229 | applying the adaptor to its own result (a view, by Apply's contract) delegates to std::view::all, yields the same elements and allocates nothing |

## Left out

- Reference counting and deallocation of the shared pointer, and the destructor (persist.hpp:51, 81, 87). Storage is a heap object that views reference; its lifetime is not modelled.
- The moved-from state of the range that the constructor takes by rvalue reference. The model takes the range's elements as a value.
- Persist.ViewPersist.constructor: moving into storage is modelled by copying the elements into a fresh object. Node-stealing moves, and the different element identities they would keep, are not distinguished. Element types that can be constructed from the range itself (such as `std::any`) are outside the model: for them the braced `new urng_t{…}` at persist.hpp:87 picks the initializer-list constructor and stores a one-element range holding the moved range.
- The concept and type-trait machinery: `InputRange`, `ViewableRange`, `CommonReference`, `transformation_trait_or_t`, the associated types and the deduction guide (persist.hpp:46, 58-70, 148-152, 160-163). Viewability is a pair of flags on `RangeArg`. A viewable range is taken to be a view or an lvalue reference; borrowed rvalue ranges are not modelled.
- Persist.Apply: the `std::view::all` result is the argument itself. The `ref_view` it builds for an lvalue container is not modelled. That view would alias the caller's container.
- The members that `ranges::view_interface` generates (`operator[]`, `empty`, `front`, …) and the pipe syntax of `pipable_adaptor_base` (persist.hpp:47, 171-183). `Plus` and `Size` stand in for the subscripting and size that the model needs.
- Single-pass stored ranges, such as file inputs, whose `begin()` does not restart. The model's storage is always a multi-pass sequence.
- The deprecated tag-dictionary forwarding header and the three usage snippets. They drive I/O classes, parsers and containers that are not part of this model.
