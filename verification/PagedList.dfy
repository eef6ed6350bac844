/** The lists of list.c: pages of elements, the last one being filled. */
module PagedList {

  /** A page has room for `size` elements, the first nb of which are in use. */
  datatype Page<T> = Page(content: seq<T>, nb: nat, size: nat)

  datatype List<T> = List(pages: seq<Page<T>>, nb: nat) {

    ghost predicate Valid()
    {
      && pages != []
      && (forall k :: 0 <= k < |pages| ==> pages[k].nb <= |pages[k].content| <= pages[k].size)
      && nb == |Elements(pages)|
    }
  }

  /** What haplo_list_loop visits, in order. */
  function Elements<T>(pages: seq<Page<T>>): seq<T>
    requires forall k :: 0 <= k < |pages| ==> pages[k].nb <= |pages[k].content|
  {
    if pages == [] then []
    else Elements(pages[..|pages| - 1]) + pages[|pages| - 1].content[..pages[|pages| - 1].nb]
  }

  /** haplo_list_new_size. */
  function New<T>(size: nat): (l: List<T>)
    ensures l.Valid() && Elements(l.pages) == []
  {
    var p := Page([], 0, size);
    assert [p][..0] == [];
    List([p], 0)
  }

  /** haplo_list_append_content: into the last page if there is room, else into a new one twice as large. */
  function Append<T>(l: List<T>, x: T): List<T>
    requires l.pages != [] && l.pages[|l.pages| - 1].nb <= |l.pages[|l.pages| - 1].content|
  {
    var last := l.pages[|l.pages| - 1];
    if last.size - last.nb < 1 then
      List(l.pages + [Page([x], 1, if 1 > 2 * last.size then 1 else 2 * last.size)], l.nb + 1)
    else
      var behind := if last.nb < |last.content| then last.content[last.nb + 1..] else [];
      var content := last.content[..last.nb] + [x] + behind;
      List(l.pages[|l.pages| - 1 := Page(content, last.nb + 1, last.size)], l.nb + 1)
  }

  /** The element arrives at the end, whatever the pages are like. */
  lemma AppendsAtEnd<T>(l: List<T>, x: T)
    requires l.Valid()
    ensures Append(l, x).Valid() && Elements(Append(l, x).pages) == Elements(l.pages) + [x]
  {
    var r, n := Append(l, x), |l.pages| - 1;
    var last := l.pages[n];
    if last.size - last.nb < 1 {
      assert r.pages[..|r.pages| - 1] == l.pages;
      assert [x][..1] == [x];
    } else {
      assert r.pages[..n] == l.pages[..n];
      assert r.pages[n].content[..last.nb + 1] == last.content[..last.nb] + [x];
    }
  }

  /** haplo_list_merge. */
  function Merge<T>(l: List<T>, xs: seq<T>): (r: List<T>)
    requires l.Valid()
    ensures r.Valid() && Elements(r.pages) == Elements(l.pages) + xs
    decreases |xs|
  {
    if xs == [] then l
    else
      AppendsAtEnd(l, xs[0]);
      var r := Merge(Append(l, xs[0]), xs[1..]);
      assert Elements(l.pages) + [xs[0]] + xs[1..] == Elements(l.pages) + xs;
      r
  }

  /** haplo_list_copy: the elements are copied into a new page, but the counts of that page and of the new list
      stay zero, so that nothing of it is ever visited. */
  function Copy<T>(l: List<T>): List<T>
    requires l.Valid()
  {
    List([Page([], 0, l.nb)], 0)
  }

  /** A copy looks empty: it equals the list it was made from exactly when that list is empty. */
  lemma CopyIsEmpty<T>(l: List<T>)
    requires l.Valid()
    ensures Copy(l).Valid() && Elements(Copy(l).pages) == []
    ensures Elements(Copy(l).pages) == Elements(l.pages) <==> l.nb == 0
  {
    var c := Copy(l);
    assert c.pages[..0] == [];
    if |l.pages| == 1 {
      assert l.pages[..0] == [];
      assert Elements(l.pages) == Elements(l.pages[..0]) + l.pages[0].content[..l.pages[0].nb];
    }
  }
}
