/** How the commands of tools/jgraph/edit.c number graphs, curves and strings: a machine over
    whole documents, with the lists of list.c and prio_list.c as sequences. */
module Numbering {
  import opened Options
  import opened Lists

  // An item of a numbered list.
  datatype Entry<T> = Entry(num: int, body: T)

  function Nums<T>(s: seq<Entry<T>>): (ns: seq<int>)
    ensures |ns| == |s| && forall i :: 0 <= i < |s| ==> ns[i] == s[i].num
  {
    seq(|s|, i requires 0 <= i < |s| => s[i].num)
  }

  // A new item, put where prio_insert puts it.
  function Add<T>(s: seq<Entry<T>>, num: int, body: T): seq<Entry<T>> {
    Inserted(s, Position(Nums(s), num, false), Entry(num, body))
  }

  // The item with this number, or a new one.
  function Fetch<T>(s: seq<Entry<T>>, num: int, body: T): seq<Entry<T>> {
    if num in Nums(s) then s else Add(s, num, body)
  }

  // The scan from the end of the list; without the number it ends below it or at the sentinel.
  function Lookup<T>(s: seq<Entry<T>>, num: int): (i: int)
    ensures -1 <= i < |s| && (i >= 0 ==> s[i].num == num)
  {
    if s == [] || s[|s| - 1].num < num then -1
    else if s[|s| - 1].num == num then |s| - 1
    else Lookup(s[..|s| - 1], num)
  }

  function SetBody<T>(s: seq<Entry<T>>, i: int, edit: Option<T>): seq<Entry<T>>
    requires 0 <= i < |s|
  {
    if edit.Some? then s[i := Entry(s[i].num, edit.value)] else s
  }

  // ----- the lists -----

  ghost predicate Ok<T(!new)>(s: seq<Entry<T>>) {
    Strict(Nums(s))
  }

  lemma NumsAdd<T>(s: seq<Entry<T>>, num: int, body: T)
    ensures Nums(Add(s, num, body)) == Inserted(Nums(s), Position(Nums(s), num, false), num)
  {
    var k := Position(Nums(s), num, false);
    var r, ns := Inserted(s, k, Entry(num, body)), Inserted(Nums(s), k, num);
    assert Add(s, num, body) == r;
    hide Inserted, Position, Add;
    InsertedOne(s, k, Entry(num, body), 0);
    InsertedOne(Nums(s), k, num, 0);
    forall m: nat | m <= |s|
      ensures r[m].num == ns[m]
    {
      InsertedOne(s, k, Entry(num, body), m);
      InsertedOne(Nums(s), k, num, m);
    }
    hide Nums;
  }

  lemma FetchOk<T(!new)>(s: seq<Entry<T>>, num: int, body: T)
    requires Ok(s)
    ensures Ok(Fetch(s, num, body)) && Nums(Fetch(s, num, body)) == Got(Nums(s), num)
    ensures num in Nums(Fetch(s, num, body))
    ensures forall x :: x in s ==> x in Fetch(s, num, body)
    ensures forall x :: x in Fetch(s, num, body) ==> x in s || x == Entry(num, body)
  {
    NumsAdd(s, num, body);
    GotStrict(Nums(s), num);
    if num !in Nums(s) {
      var k := Position(Nums(s), num, false);
      Members(s, k, Entry(num, body));
      assert Inserted(Nums(s), k, num)[k] == num;
    }
  }

  lemma Members<T>(s: seq<T>, k: nat, x: T)
    requires k <= |s|
    ensures forall y :: y in s ==> y in Inserted(s, k, x)
    ensures forall y :: y in Inserted(s, k, x) ==> y in s || y == x
  {
    InsertedAt(s, k, x);
    hide Inserted;
    forall y | y in s
      ensures y in Inserted(s, k, x)
    {
      var i :| 0 <= i < |s| && s[i] == y;
      assert Inserted(s, k, x)[if i < k then i else i + 1] == y;
    }
  }

  // A new item after the last one goes to the end.
  lemma AddNext<T(!new)>(s: seq<Entry<T>>, body: T)
    requires Ok(s)
    ensures var n := NextNumber(Nums(s));
      n !in Nums(s) && Add(s, n, body) == s + [Entry(n, body)] && Ok(Add(s, n, body))
  {
    var n := NextNumber(Nums(s));
    NextIsLast(Nums(s));
    NumsAdd(s, n, body);
    AtEnd(s, Entry(n, body));
  }

  /** In an ascending list the scan finds the one item with the number, if there is one. */
  lemma {:induction false} LookupMeans<T(!new)>(s: seq<Entry<T>>, num: int)
    requires Ok(s)
    ensures Lookup(s, num) == -1 <==> num !in Nums(s)
    ensures forall j :: 0 <= j < |s| && s[j].num == num ==> j == Lookup(s, num)
  {
    if s != [] {
      var n := |s| - 1;
      assert Nums(s[..n]) == Nums(s)[..n] && Nums(s) == Nums(s)[..n] + [s[n].num];
      LookupMeans(s[..n], num);
      if s[n].num < num {
        assert forall j :: 0 <= j < n ==> Nums(s)[j] < Nums(s)[n];
      } else if s[n].num == num {
        assert forall j :: 0 <= j < n ==> Nums(s)[j] < Nums(s)[n];
        assert Nums(s)[n] == num;
      }
    }
  }

  lemma SetBodyOk<T(!new)>(s: seq<Entry<T>>, i: int, edit: Option<T>)
    requires Ok(s) && 0 <= i < |s|
    ensures Ok(SetBody(s, i, edit)) && Nums(SetBody(s, i, edit)) == Nums(s)
    ensures forall x :: x in s && x.num != s[i].num ==> x in SetBody(s, i, edit)
  {
    forall x | x in s && x.num != s[i].num
      ensures x in SetBody(s, i, edit)
    {
      var j :| 0 <= j < |s| && s[j] == x;
      assert SetBody(s, i, edit)[j] == x;
    }
  }

  // ----- documents -----

  // All that copycurve and copystring copy, and what inherit_axes does.
  type Look = int

  const PLAIN: Look := 0

  datatype Body = Body(axes: Look, curves: seq<Entry<Look>>, strings: seq<Entry<Look>>)

  type Graph = Entry<Body>
  type Page = seq<Graph>

  const EMPTY := Body(PLAIN, [], [])

  // The pages, of which the last is edited, and the place of the graph that is edited, or -1.
  datatype Document = Document(pages: seq<Page>, at: int)

  // Which list of a graph a command works on.
  datatype Kind = Curves | Strings

  function Of(b: Body, kind: Kind): seq<Entry<Look>> {
    if kind.Curves? then b.curves else b.strings
  }

  function With(b: Body, kind: Kind, s: seq<Entry<Look>>): Body {
    if kind.Curves? then b.(curves := s) else b.(strings := s)
  }

  /** The commands.  What follows the name of a curve or a string may edit it; a copy without a
      number copies the latest one. */
  datatype Command =
    | GraphNumber(num: int) | NewGraph | CopyGraph | CopyGraphNumber(num: int) | NewPage
    | Axes(look: Look) | InheritAxes
    | ItemNumber(kind: Kind, num: int, edit: Option<Look>)
    | NewItem(kind: Kind, start: Look, edit: Option<Look>)
    | CopyItem(kind: Kind, edit: Option<Look>)
    | CopyItemNumber(kind: Kind, num: int, edit: Option<Look>)

  // The last item of the latest graph of the page that has one, from graph i back.
  function LatestIn(p: Page, i: int, kind: Kind): Option<Look>
    requires i < |p|
    decreases i + 1
  {
    if i < 0 then None
    else if Of(p[i].body, kind) != [] then Some(Of(p[i].body, kind)[|Of(p[i].body, kind)| - 1].body)
    else LatestIn(p, i - 1, kind)
  }

  // And from there through the earlier pages.
  function Latest(pages: seq<Page>, i: int, kind: Kind): Option<Look>
    requires pages != [] && i < |pages[|pages| - 1]|
  {
    var n := |pages| - 1;
    var here := LatestIn(pages[n], i, kind);
    if here.Some? || n == 0 then here else Latest(pages[..n], |pages[n - 1]| - 1, kind)
  }

  // last_graph: the graph before place i, or the last one of an earlier page.
  function GraphBefore(pages: seq<Page>, i: int): Option<Body>
    requires pages != [] && i <= |pages[|pages| - 1]|
  {
    var n := |pages| - 1;
    if i > 0 then Some(pages[n][i - 1].body)
    else if n == 0 then None
    else GraphBefore(pages[..n], |pages[n - 1]|)
  }

  function Last(d: Document): Page
    requires d.pages != []
  {
    d.pages[|d.pages| - 1]
  }

  function SetLast(d: Document, p: Page, at: int): (r: Document)
    requires d.pages != []
    ensures r.pages != [] && Last(r) == p && r.at == at
  {
    Document(d.pages[|d.pages| - 1 := p], at)
  }

  // The document with other items in the graph that is edited.
  function SetItems(d: Document, kind: Kind, s: seq<Entry<Look>>): (r: Document)
    requires d.pages != [] && 0 <= d.at < |Last(d)|
    ensures r.pages != [] && r.at < |Last(r)|
  {
    var g := Last(d)[d.at];
    SetLast(d, Last(d)[d.at := Entry(g.num, With(g.body, kind, s))], d.at)
  }

  function SetAxes(d: Document, look: Look): (r: Document)
    requires d.pages != [] && 0 <= d.at < |Last(d)|
    ensures r.pages != [] && r.at < |Last(r)|
  {
    var g := Last(d)[d.at];
    SetLast(d, Last(d)[d.at := Entry(g.num, g.body.(axes := look))], d.at)
  }

  function Items(d: Document, kind: Kind): seq<Entry<Look>>
    requires d.pages != [] && 0 <= d.at < |Last(d)|
  {
    Of(Last(d)[d.at].body, kind)
  }

  // A new graph after the last of the page, with axes taken over from another.
  function AddGraph(d: Document, axes: Look): (r: Document)
    requires d.pages != []
    ensures r.pages != []
  {
    var p := Last(d);
    SetLast(d, Add(p, NextNumber(Nums(p)), EMPTY.(axes := axes)), |p|)
  }

  // One command; None is the end of the program.
  function Step(d: Document, c: Command): (r: Option<Document>)
    requires d.pages != [] && d.at < |Last(d)|
    ensures r.Some? ==> r.value.pages != [] && r.value.at < |Last(r.value)|
  {
    match c
    case NewPage => Some(Document(d.pages + [[]], -1))
    case GraphNumber(num) =>
      var p := Fetch(Last(d), num, EMPTY);
      Some(SetLast(d, p, Lookup(p, num)))
    case NewGraph => Some(AddGraph(d, PLAIN))
    case CopyGraph =>
      var from := GraphBefore(d.pages, |Last(d)|);
      if from.None? then None else Some(AddGraph(d, from.value.axes))
    case CopyGraphNumber(num) =>
      var e := AddGraph(d, PLAIN);
      var i := Lookup(Last(e), num);
      if i < 0 then None else Some(AddGraph(d, Last(e)[i].body.axes))
    case _ => if d.at < 0 then None else EditGraph(d, c)
  }

  // The commands inside a graph.
  function EditGraph(d: Document, c: Command): (r: Option<Document>)
    requires d.pages != [] && 0 <= d.at < |Last(d)|
    ensures r.Some? ==> r.value.pages != [] && r.value.at < |Last(r.value)|
  {
    match c
    case Axes(look) => Some(SetAxes(d, look))
    case InheritAxes =>
      var from := GraphBefore(d.pages, d.at);
      if from.None? then None else Some(SetAxes(d, from.value.axes))
    case ItemNumber(kind, num, edit) =>
      var s := Fetch(Items(d, kind), num, PLAIN);
      var i := Lookup(s, num);
      if i < 0 then None else Some(SetItems(d, kind, SetBody(s, i, edit)))
    case NewItem(kind, start, edit) => Some(SetItems(d, kind, Appended(Items(d, kind), start, edit)))
    case CopyItem(kind, edit) =>
      var from := Latest(d.pages, d.at, kind);
      if from.None? then None else Some(SetItems(d, kind, Appended(Items(d, kind), from.value, edit)))
    case CopyItemNumber(kind, num, edit) =>
      var from := LookOf(Items(d, kind), num);
      if from.None? then None else Some(SetItems(d, kind, Appended(Items(d, kind), from.value, edit)))
    case _ => None
  }

  // What the item with a number looks like when a new one has been added to the list.
  function LookOf(s: seq<Entry<Look>>, num: int): Option<Look> {
    var t := Add(s, NextNumber(Nums(s)), PLAIN);
    var i := Lookup(t, num);
    if i < 0 then None else Some(t[i].body)
  }

  // A new last item, edited.
  function Appended(s: seq<Entry<Look>>, look: Look, edit: Option<Look>): seq<Entry<Look>> {
    Add(s, NextNumber(Nums(s)), if edit.Some? then edit.value else look)
  }

  ghost predicate Whole(b: Body) {
    Ok(b.curves) && Ok(b.strings)
  }

  ghost predicate PageOk(p: Page) {
    Ok(p) && forall i :: 0 <= i < |p| ==> Whole(p[i].body)
  }

  // Every list of the document is in strictly ascending order.
  ghost predicate Valid(d: Document) {
    && d.pages != [] && -1 <= d.at < |Last(d)|
    && forall n :: 0 <= n < |d.pages| ==> PageOk(d.pages[n])
  }

  // ----- one command -----

  lemma LastOk(d: Document, p: Page, at: int)
    requires Valid(d) && PageOk(p) && -1 <= at < |p|
    ensures Valid(SetLast(d, p, at))
  {
  }

  lemma GraphOk(d: Document, b: Body)
    requires Valid(d) && d.at >= 0 && Whole(b)
    ensures PageOk(Last(d)[d.at := Entry(Last(d)[d.at].num, b)])
  {
    var p := Last(d);
    SetBodyOk(p, d.at, Some(b));
    hide Ok, Whole;
    assert SetBody(p, d.at, Some(b)) == p[d.at := Entry(p[d.at].num, b)];
  }

  lemma ItemsOk(d: Document, kind: Kind, s: seq<Entry<Look>>)
    requires Valid(d) && d.at >= 0 && Ok(s)
    ensures Valid(SetItems(d, kind, s))
  {
    var p := Last(d);
    var b := With(p[d.at].body, kind, s);
    assert PageOk(p) && Whole(p[d.at].body);
    assert Whole(b);
    hide Ok, Whole, PageOk;
    GraphOk(d, b);
    LastOk(d, p[d.at := Entry(p[d.at].num, b)], d.at);
  }

  lemma AddGraphOk(d: Document, axes: Look)
    requires Valid(d)
    ensures Valid(AddGraph(d, axes))
    ensures Last(AddGraph(d, axes)) == Last(d) + [Entry(NextNumber(Nums(Last(d))), EMPTY.(axes := axes))]
  {
    var p := Last(d);
    assert PageOk(p);
    AddNext(p, EMPTY.(axes := axes));
    assert Whole(EMPTY.(axes := axes));
    hide Ok, Whole, Inserted, Nums;
    var q := Add(p, NextNumber(Nums(p)), EMPTY.(axes := axes));
    assert PageOk(q);
    LastOk(d, q, |p|);
  }

  lemma FetchGraphOk(d: Document, num: int)
    requires Valid(d)
    ensures var p := Fetch(Last(d), num, EMPTY);
      PageOk(p) && 0 <= Lookup(p, num) && Valid(SetLast(d, p, Lookup(p, num)))
  {
    var s := Last(d);
    var p := Fetch(s, num, EMPTY);
    assert PageOk(s);
    FetchOk(s, num, EMPTY);
    LookupMeans(p, num);
    assert Whole(EMPTY);
    hide Ok, Whole, Fetch;
    forall i | 0 <= i < |p|
      ensures Whole(p[i].body)
    {
      assert p[i] in p;
      if p[i] in s {
        var j :| 0 <= j < |s| && s[j] == p[i];
      }
    }
    LastOk(d, p, Lookup(p, num));
  }

  lemma CurrentOk(d: Document, kind: Kind)
    requires Valid(d) && d.at >= 0
    ensures Ok(Items(d, kind))
  {
    assert PageOk(Last(d)) && Whole(Last(d)[d.at].body);
    hide Ok;
  }

  lemma ItemKeeps(d: Document, kind: Kind, num: int, edit: Option<Look>)
    requires Valid(d) && d.at >= 0
    ensures var r := EditGraph(d, ItemNumber(kind, num, edit)); r.Some? ==> Valid(r.value)
  {
    CurrentOk(d, kind);
    hide Ok, Fetch, Lookup, SetBody, SetItems;
    var s := Fetch(Items(d, kind), num, PLAIN);
    FetchOk(Items(d, kind), num, PLAIN);
    var i := Lookup(s, num);
    if i >= 0 {
      SetBodyOk(s, i, edit);
      ItemsOk(d, kind, SetBody(s, i, edit));
    }
  }

  lemma CopyKeeps(d: Document, kind: Kind, edit: Option<Look>)
    requires Valid(d) && d.at >= 0
    ensures var r := EditGraph(d, CopyItem(kind, edit)); r.Some? ==> Valid(r.value)
  {
    Current(d);
    var from := Latest(d.pages, d.at, kind);
    hide Valid, Appended, Latest, SetItems;
    if from.Some? { AppendKeeps(d, kind, from.value, edit); }
  }

  lemma CopyNumberKeeps(d: Document, kind: Kind, num: int, edit: Option<Look>)
    requires Valid(d) && d.at >= 0
    ensures var r := EditGraph(d, CopyItemNumber(kind, num, edit)); r.Some? ==> Valid(r.value)
  {
    Current(d);
    var from := LookOf(Items(d, kind), num);
    hide Valid, Appended, LookOf, SetItems;
    if from.Some? { AppendKeeps(d, kind, from.value, edit); }
  }

  lemma InheritKeeps(d: Document)
    requires Valid(d) && d.at >= 0
    ensures var r := EditGraph(d, InheritAxes); r.Some? ==> Valid(r.value)
  {
    Current(d);
    hide Valid, GraphBefore, SetAxes;
    var from := GraphBefore(d.pages, d.at);
    if from.Some? { AxesKeep(d, from.value.axes); }
  }

  lemma Current(d: Document)
    requires Valid(d)
    ensures d.pages != [] && -1 <= d.at < |Last(d)|
  {
  }

  lemma EditKeeps(d: Document, c: Command)
    requires Valid(d) && d.at >= 0
    ensures EditGraph(d, c).Some? ==> Valid(EditGraph(d, c).value)
  {
    Current(d);
    match c
    case ItemNumber(kind, num, edit) =>
      hide *;
      ItemKeeps(d, kind, num, edit);
    case CopyItem(kind, edit) =>
      hide *;
      CopyKeeps(d, kind, edit);
    case CopyItemNumber(kind, num, edit) =>
      hide *;
      CopyNumberKeeps(d, kind, num, edit);
    case InheritAxes =>
      hide *;
      InheritKeeps(d);
    case NewItem(kind, start, edit) =>
      hide Valid, Items, Appended, SetItems;
      AppendKeeps(d, kind, start, edit);
    case Axes(look) =>
      hide Valid, SetAxes;
      AxesKeep(d, look);
    case _ =>
      hide Valid;
  }

  lemma AxesKeep(d: Document, look: Look)
    requires Valid(d) && d.at >= 0
    ensures Valid(SetAxes(d, look))
  {
    var g := Last(d)[d.at];
    assert PageOk(Last(d)) && Whole(g.body);
    hide Ok, PageOk;
    GraphOk(d, g.body.(axes := look));
    LastOk(d, Last(d)[d.at := Entry(g.num, g.body.(axes := look))], d.at);
  }

  lemma AppendKeeps(d: Document, kind: Kind, look: Look, edit: Option<Look>)
    requires Valid(d) && d.at >= 0
    ensures Valid(SetItems(d, kind, Appended(Items(d, kind), look, edit)))
  {
    CurrentOk(d, kind);
    AddNext(Items(d, kind), if edit.Some? then edit.value else look);
    hide Ok, Add;
    ItemsOk(d, kind, Appended(Items(d, kind), look, edit));
  }

  lemma StepKeeps(d: Document, c: Command)
    requires Valid(d)
    ensures Step(d, c).Some? ==> Valid(Step(d, c).value)
  {
    match c
    case NewPage => hide PageOk; NewPageOk(d);
    case GraphNumber(num) =>
      hide *;
      GraphNumberKeeps(d, num);
    case NewGraph =>
      hide PageOk, AddGraph;
      AddGraphOk(d, PLAIN);
    case CopyGraph =>
      hide *;
      CopyGraphKeeps(d);
    case CopyGraphNumber(num) =>
      hide *;
      CopyGraphNumberKeeps(d, num);
    case _ =>
      hide PageOk, EditGraph;
      if d.at >= 0 { EditKeeps(d, c); }
  }

  lemma GraphNumberKeeps(d: Document, num: int)
    requires Valid(d)
    ensures var e := Step(d, GraphNumber(num)); e.Some? ==> Valid(e.value)
  {
    FetchGraphOk(d, num);
    hide PageOk, Fetch, Lookup;
  }

  lemma CopyGraphKeeps(d: Document)
    requires Valid(d)
    ensures var e := Step(d, CopyGraph); e.Some? ==> Valid(e.value)
  {
    var from := GraphBefore(d.pages, |Last(d)|);
    hide PageOk, AddGraph, GraphBefore;
    if from.Some? { AddGraphOk(d, from.value.axes); }
  }

  lemma CopyGraphNumberKeeps(d: Document, num: int)
    requires Valid(d)
    ensures var e := Step(d, CopyGraphNumber(num)); e.Some? ==> Valid(e.value)
  {
    hide *;
    Current(d);
    CopyNumberIs(d, num);
    var q := Last(AddGraph(d, PLAIN));
    var i := Lookup(q, num);
    if i >= 0 { AddGraphOk(d, q[i].body.axes); }
  }

  lemma NewPageOk(d: Document)
    requires Valid(d)
    ensures Valid(Document(d.pages + [[]], -1))
  {
    assert PageOk([]);
  }

  // ----- every run -----

  const START := Document([[]], -1)

  function Run(d: Document, cs: seq<Command>): Option<Document>
    requires d.pages != [] && d.at < |Last(d)|
    decreases |cs|
  {
    if cs == [] then Some(d)
    else
      var e := Step(d, cs[0]);
      if e.None? then None else Run(e.value, cs[1..])
  }

  /** Over every run of commands the numbers of every list ascend strictly. */
  lemma {:induction false} RunKeeps(d: Document, cs: seq<Command>)
    requires Valid(d)
    ensures Run(d, cs).Some? ==> Valid(Run(d, cs).value)
    decreases |cs|
  {
    hide Step, PageOk;
    if cs != [] {
      StepKeeps(d, cs[0]);
      var e := Step(d, cs[0]);
      if e.Some? { RunKeeps(e.value, cs[1..]); }
    }
  }

  lemma RunsFromStart(cs: seq<Command>)
    ensures Run(START, cs).Some? ==> Valid(Run(START, cs).value)
  {
    assert PageOk([]);
    RunKeeps(START, cs);
  }

  /** No command changes an item other than the one with the number it edits, or removes one. */
  lemma ItemsStay(d: Document, kind: Kind, num: int, edit: Option<Look>)
    requires Valid(d) && d.at >= 0
    ensures var e := EditGraph(d, ItemNumber(kind, num, edit));
      && e.Some? && Valid(e.value) && e.value.at == d.at
      && Nums(Items(e.value, kind)) == Got(Nums(Items(d, kind)), num)
      && (forall x :: x in Items(d, kind) && x.num != num ==> x in Items(e.value, kind))
      && (edit.Some? ==> Entry(num, edit.value) in Items(e.value, kind))
  {
    CurrentOk(d, kind);
    EditKeeps(d, ItemNumber(kind, num, edit));
    var t := Items(d, kind);
    var s := Fetch(t, num, PLAIN);
    FetchOk(t, num, PLAIN);
    LookupMeans(s, num);
    var i := Lookup(s, num);
    SetBodyOk(s, i, edit);
    hide Valid, Ok, Fetch, Lookup;
    assert SetBody(s, i, edit)[i] == if edit.Some? then Entry(num, edit.value) else s[i];
  }

  // A new or copied item comes last, and all others stay.
  lemma AppendedLast(d: Document, kind: Kind, look: Look, edit: Option<Look>)
    requires Valid(d) && d.at >= 0
    ensures var s := Items(d, kind);
      Appended(s, look, edit) == s + [Entry(NextNumber(Nums(s)), if edit.Some? then edit.value else look)]
  {
    CurrentOk(d, kind);
    AddNext(Items(d, kind), if edit.Some? then edit.value else look);
  }

  /** copycurve and copystring with a number succeed exactly when there is an item with it, or it is the
      number of the new item itself, which is then a copy of nothing. */
  lemma CopyNumbered(d: Document, kind: Kind, num: int, edit: Option<Look>)
    requires Valid(d) && d.at >= 0
    ensures var s := Items(d, kind); var e := EditGraph(d, CopyItemNumber(kind, num, edit));
      && (e.Some? <==> num in Nums(s) || num == NextNumber(Nums(s)))
      && (e.Some? ==> forall x :: x in s && x.num == num ==> e.value == SetItems(d, kind, Appended(s, x.body, edit)))
      && (e.Some? && num !in Nums(s) ==> e.value == SetItems(d, kind, Appended(s, PLAIN, edit)))
  {
    CurrentOk(d, kind);
    CopySource(Items(d, kind), num);
    hide Valid, Ok, Add, Lookup, Nums, Appended, SetItems, Items, NextNumber;
  }

  // The item that a copy with a number takes after.
  lemma CopySource(s: seq<Entry<Look>>, num: int)
    requires Ok(s)
    ensures var r := Add(s, NextNumber(Nums(s)), PLAIN); var i := Lookup(r, num);
      && (i >= 0 <==> num in Nums(s) || num == NextNumber(Nums(s)))
      && (i >= 0 ==> forall x :: x in s && x.num == num ==> r[i].body == x.body)
      && (i >= 0 && num !in Nums(s) ==> r[i].body == PLAIN)
  {
    hide *;
    var n := NextNumber(Nums(s));
    AddNext(s, PLAIN);
    AddedNumbers(s, n);
    LookupMeans(s + [Entry(n, PLAIN)], num);
    SourceIs(s, Entry(n, PLAIN), Lookup(s + [Entry(n, PLAIN)], num), num);
  }

  lemma SourceIs(s: seq<Entry<Look>>, last: Entry<Look>, i: int, num: int)
    requires -1 <= i <= |s| && (i >= 0 ==> (s + [last])[i].num == num)
    requires forall j :: 0 <= j <= |s| && (s + [last])[j].num == num ==> j == i
    ensures i >= 0 ==> forall x :: x in s && x.num == num ==> (s + [last])[i].body == x.body
    ensures i >= 0 && num !in Nums(s) ==> (s + [last])[i] == last
  {
    forall x | x in s && x.num == num
      ensures i >= 0 && (s + [last])[i] == x
    {
      var j :| 0 <= j < |s| && s[j] == x;
      assert (s + [last])[j] == x;
    }
    if 0 <= i < |s| {
      assert Nums(s)[i] == num;
    }
  }

  lemma AddedNumbers(s: seq<Entry<Look>>, n: int)
    ensures Nums(s + [Entry(n, PLAIN)]) == Nums(s) + [n]
    ensures forall m :: m in Nums(s + [Entry(n, PLAIN)]) <==> m in Nums(s) || m == n
  {
  }

  ghost predicate NoItems(p: Page, i: int, kind: Kind)
    requires i < |p|
  {
    forall j :: 0 <= j <= i ==> Of(p[j].body, kind) == []
  }

  /** A copy without a number fails exactly when no graph from the edited one back, on any page, has an
      item. */
  lemma {:induction false} LatestMeans(pages: seq<Page>, i: int, kind: Kind)
    requires pages != [] && i < |pages[|pages| - 1]|
    ensures Latest(pages, i, kind).None? <==>
      NoItems(pages[|pages| - 1], i, kind) && forall n :: 0 <= n < |pages| - 1 ==> NoItems(pages[n], |pages[n]| - 1, kind)
    decreases |pages|
  {
    var n := |pages| - 1;
    LatestInMeans(pages[n], i, kind);
    hide NoItems;
    if n > 0 {
      LatestMeans(pages[..n], |pages[n - 1]| - 1, kind);
    }
  }

  lemma {:induction false} LatestInMeans(p: Page, i: int, kind: Kind)
    requires i < |p|
    ensures LatestIn(p, i, kind).None? <==> NoItems(p, i, kind)
    decreases i + 1
  {
    if i >= 0 { LatestInMeans(p, i - 1, kind); }
  }

  /** What a copy without a number copies: the last item of the nearest graph that has one, graph j of
      page n. */
  lemma {:induction false} LatestWhich(pages: seq<Page>, i: int, kind: Kind) returns (n: nat, j: nat)
    requires pages != [] && i < |pages[|pages| - 1]| && Latest(pages, i, kind).Some?
    ensures n < |pages| && j < |pages[n]| && (n == |pages| - 1 ==> j <= i)
    ensures var items := Of(pages[n][j].body, kind);
      items != [] && Latest(pages, i, kind) == Some(items[|items| - 1].body)
    ensures forall k :: j < k < |pages[n]| && (n == |pages| - 1 ==> k <= i) ==> Of(pages[n][k].body, kind) == []
    ensures n < |pages| - 1 ==> NoItems(pages[|pages| - 1], i, kind)
    ensures forall m :: n < m < |pages| - 1 ==> NoItems(pages[m], |pages[m]| - 1, kind)
    decreases |pages|
  {
    var last := |pages| - 1;
    LatestInMeans(pages[last], i, kind);
    if LatestIn(pages[last], i, kind).Some? {
      n := last;
      j := NearestIn(pages[last], i, kind);
    } else {
      n, j := LatestWhich(pages[..last], |pages[last - 1]| - 1, kind);
      hide Of;
      assert pages[..last][n] == pages[n];
      forall m | n < m < last
        ensures NoItems(pages[m], |pages[m]| - 1, kind)
      {
        assert pages[..last][m] == pages[m];
      }
    }
  }

  lemma {:induction false} NearestIn(p: Page, i: int, kind: Kind) returns (j: nat)
    requires i < |p| && LatestIn(p, i, kind).Some?
    ensures j <= i && Of(p[j].body, kind) != []
    ensures var items := Of(p[j].body, kind); LatestIn(p, i, kind) == Some(items[|items| - 1].body)
    ensures forall k :: j < k <= i ==> Of(p[k].body, kind) == []
    decreases i + 1
  {
    if Of(p[i].body, kind) != [] {
      j := i;
    } else {
      j := NearestIn(p, i - 1, kind);
    }
  }

  // ----- which graph is edited -----

  // The other pages stay.
  predicate LastPageOnly(d: Document, e: Document)
    requires d.pages != []
  {
    |e.pages| == |d.pages| && e.pages[..|d.pages| - 1] == d.pages[..|d.pages| - 1]
  }

  /** graph n edits the graph with this number, which is a new and empty one if there was none; all
      other graphs stay. */
  lemma GraphEdited(d: Document, num: int)
    requires Valid(d)
    ensures Step(d, GraphNumber(num)).Some?
    ensures var p := Last(d); var e := Step(d, GraphNumber(num)).value; var q := Last(e);
      && LastPageOnly(d, e) && 0 <= e.at && q[e.at].num == num
      && Nums(q) == Got(Nums(p), num)
      && (forall g :: g in p ==> g in q)
      && (forall g :: g in q ==> g in p || g == Entry(num, EMPTY))
  {
    var p := Last(d);
    assert PageOk(p);
    FetchOk(p, num, EMPTY);
    LookupMeans(Fetch(p, num, EMPTY), num);
    hide Valid, Ok, PageOk, Fetch, Lookup, Nums, Got;
    assert LastPageOnly(d, SetLast(d, Fetch(p, num, EMPTY), Lookup(Fetch(p, num, EMPTY), num)));
  }

  // A new graph with these axes has been added behind the others, and is edited.
  predicate AddedGraph(d: Document, e: Document, axes: Look)
    requires d.pages != []
  {
    && LastPageOnly(d, e) && e.pages != [] && e.at == |Last(d)|
    && Last(e) == Last(d) + [Entry(NextNumber(Nums(Last(d))), Body(axes, [], []))]
  }

  lemma GraphAdded(d: Document, axes: Look)
    requires Valid(d)
    ensures AddedGraph(d, AddGraph(d, axes), axes)
  {
    AddGraphOk(d, axes);
    hide Valid, Nums, NextNumber, Add;
  }

  lemma NewGraphEdited(d: Document)
    requires Valid(d)
    ensures var e := Step(d, NewGraph); e.Some? && AddedGraph(d, e.value, PLAIN)
  {
    GraphAdded(d, PLAIN);
    hide Valid, AddGraph, AddedGraph;
  }

  // A new page has no graphs, none of which is edited then, and all other pages stay.
  lemma NewPageEdited(d: Document)
    ensures d.pages != [] && d.at < |Last(d)| ==>
      var e := Step(d, NewPage);
      e.Some? && |e.value.pages| == |d.pages| + 1 && e.value.pages[..|d.pages|] == d.pages && Last(e.value) == [] && e.value.at < 0
  {
  }

  // The graph before place i of the last page, or the last one of the nearest page in front that has any.
  predicate IsBefore(pages: seq<Page>, i: int, b: Body)
    requires pages != [] && i <= |pages[|pages| - 1]|
  {
    if i > 0 then b == pages[|pages| - 1][i - 1].body
    else
      exists n: nat :: n < |pages| - 1 && pages[n] != [] && b == pages[n][|pages[n]| - 1].body
        && forall m :: n < m < |pages| - 1 ==> pages[m] == []
  }

  lemma {:induction false} GraphBeforeMeans(pages: seq<Page>, i: int)
    requires pages != [] && i <= |pages[|pages| - 1]|
    ensures GraphBefore(pages, i).None? <==> i <= 0 && forall n :: 0 <= n < |pages| - 1 ==> pages[n] == []
    ensures GraphBefore(pages, i).Some? ==> IsBefore(pages, i, GraphBefore(pages, i).value)
    decreases |pages|
  {
    var last := |pages| - 1;
    if i <= 0 && last > 0 {
      var front := pages[..last];
      var k := |pages[last - 1]|;
      GraphBeforeMeans(front, k);
      assert front[last - 1] == pages[last - 1];
      if k > 0 {
        var n: nat := last - 1;
        assert GraphBefore(pages, i) == Some(pages[n][|pages[n]| - 1].body);
      } else if GraphBefore(front, k).Some? {
        var n: nat :| n < last - 1 && front[n] != [] && GraphBefore(front, k).value == front[n][|front[n]| - 1].body
          && forall m :: n < m < last - 1 ==> front[m] == [];
        assert pages[n] == front[n];
        forall m | n < m < last
          ensures pages[m] == []
        {
          if m < last - 1 { assert pages[m] == front[m]; }
        }
      }
    }
  }

  /** copygraph adds a graph with the axes of the one before it, on whatever page that is, and fails
      exactly when there is none. */
  lemma CopiedGraphEdited(d: Document)
    requires Valid(d)
    ensures var e := Step(d, CopyGraph);
      && (e.None? <==> forall n :: 0 <= n < |d.pages| ==> d.pages[n] == [])
      && (e.Some? ==> exists b :: IsBefore(d.pages, |Last(d)|, b) && AddedGraph(d, e.value, b.axes))
  {
    GraphBeforeMeans(d.pages, |Last(d)|);
    var from := GraphBefore(d.pages, |Last(d)|);
    if from.Some? { GraphAdded(d, from.value.axes); }
    hide Valid, AddGraph, AddedGraph, GraphBefore, IsBefore;
  }

  /** With a number it takes the axes of the graph of the page with that number, or none if that is the number
      of the new graph itself, and fails exactly when there is neither. */
  lemma NumberedGraphEdited(d: Document, num: int)
    requires Valid(d)
    ensures var p := Last(d); var e := Step(d, CopyGraphNumber(num));
      && (e.Some? <==> num in Nums(p) || num == NextNumber(Nums(p)))
      && (e.Some? ==> forall g :: g in p && g.num == num ==> AddedGraph(d, e.value, g.body.axes))
      && (e.Some? && num !in Nums(p) ==> AddedGraph(d, e.value, PLAIN))
  {
    hide *;
    Current(d);
    var p := Last(d);
    var n := NextNumber(Nums(p));
    PlainAdded(d);
    var q := Last(AddGraph(d, PLAIN));
    CopyNumberIs(d, num);
    LookupMeans(q, num);
    var i := Lookup(q, num);
    Sources(p, q[|p|], num, i);
    if i >= 0 { GraphAdded(d, q[i].body.axes); }
  }

  lemma CopyNumberIs(d: Document, num: int)
    requires d.pages != [] && d.at < |Last(d)|
    ensures AddGraph(d, PLAIN).pages != []
    ensures var q := Last(AddGraph(d, PLAIN)); var i := Lookup(q, num);
      Step(d, CopyGraphNumber(num)) == if i < 0 then None else Some(AddGraph(d, q[i].body.axes))
  {
    hide AddGraph, Lookup;
  }

  lemma PlainAdded(d: Document)
    requires Valid(d)
    ensures AddGraph(d, PLAIN).pages != []
    ensures var q := Last(AddGraph(d, PLAIN)); var p := Last(d);
      && Ok(q) && |q| == |p| + 1 && q == p + [q[|p|]] && q[|p|].num == NextNumber(Nums(p)) && q[|p|].body.axes == PLAIN
  {
    AddGraphOk(d, PLAIN);
    assert PageOk(Last(d));
    NextIsNew(Last(d), EMPTY);
    hide Valid, Ok, Nums, NextNumber, AddGraph;
    var p, q := Last(d), Last(AddGraph(d, PLAIN));
    assert EMPTY.(axes := PLAIN) == EMPTY;
    assert q == p + [Entry(NextNumber(Nums(p)), EMPTY)];
  }

  lemma NextIsNew(p: Page, b: Body)
    requires Ok(p)
    ensures Ok(p + [Entry(NextNumber(Nums(p)), b)])
  {
    AddNext(p, b);
  }

  lemma Sources(p: Page, last: Graph, num: int, i: int)
    requires -1 <= i <= |p| && (i == -1 <==> num !in Nums(p + [last])) && (i >= 0 ==> (p + [last])[i].num == num)
    requires forall j :: 0 <= j <= |p| && (p + [last])[j].num == num ==> j == i
    ensures i >= 0 <==> num in Nums(p) || num == last.num
    ensures i >= 0 ==> forall g :: g in p && g.num == num ==> g == (p + [last])[i]
    ensures i >= 0 && num !in Nums(p) ==> (p + [last])[i] == last
  {
    assert Nums(p + [last]) == Nums(p) + [last.num];
    forall g | g in p && g.num == num
      ensures i >= 0 && g == (p + [last])[i]
    {
      var j :| 0 <= j < |p| && p[j] == g;
      assert (p + [last])[j] == g;
    }
    if 0 <= i < |p| { assert Nums(p)[i] == num; }
  }

  // ----- what a command inside a graph leaves alone -----

  // All other pages and graphs, and the number of this one.
  predicate OnlyThisGraph(d: Document, e: Document)
    requires d.pages != [] && 0 <= d.at < |Last(d)|
  {
    && LastPageOnly(d, e) && e.pages != [] && e.at == d.at && |Last(e)| == |Last(d)|
    && Last(e)[d.at].num == Last(d)[d.at].num
    && forall i :: 0 <= i < |Last(d)| && i != d.at ==> Last(e)[i] == Last(d)[i]
  }

  // The graph that is edited.
  function Edited(d: Document): Body
    requires d.pages != [] && 0 <= d.at < |Last(d)|
  {
    Last(d)[d.at].body
  }

  // Only the items of one kind have changed, to s.
  predicate NewItems(d: Document, e: Document, kind: Kind, s: seq<Entry<Look>>)
    requires d.pages != [] && 0 <= d.at < |Last(d)|
  {
    OnlyThisGraph(d, e) &&
    Edited(e) == if kind.Curves? then Body(Edited(d).axes, s, Edited(d).strings)
                 else Body(Edited(d).axes, Edited(d).curves, s)
  }

  lemma ItemsSet(d: Document, kind: Kind, s: seq<Entry<Look>>)
    requires d.pages != [] && 0 <= d.at < |Last(d)|
    ensures NewItems(d, SetItems(d, kind, s), kind, s) && Items(SetItems(d, kind, s), kind) == s
  {
  }

  /** newcurve and newstring put an item behind the others of the graph, numbered one above the last. */
  lemma ItemAdded(d: Document, kind: Kind, start: Look, edit: Option<Look>)
    requires Valid(d) && d.at >= 0
    ensures var s := Items(d, kind); var e := Step(d, NewItem(kind, start, edit));
      && e.Some? && e.value.pages != []
      && NewItems(d, e.value, kind, s + [Entry(NextNumber(Nums(s)), if edit.Some? then edit.value else start)])
  {
    hide *;
    Current(d);
    NewItemIs(d, kind, start, edit);
    AppendedLast(d, kind, start, edit);
    ItemsSet(d, kind, Appended(Items(d, kind), start, edit));
  }

  lemma NewItemIs(d: Document, kind: Kind, start: Look, edit: Option<Look>)
    requires d.pages != [] && 0 <= d.at < |Last(d)|
    ensures Step(d, NewItem(kind, start, edit)) == Some(SetItems(d, kind, Appended(Items(d, kind), start, edit)))
  {
    hide SetItems, Appended, Items, Last;
  }

  /** copycurve and copystring without a number do so with a copy of the last item of the nearest graph that
      has one. */
  lemma ItemCopied(d: Document, kind: Kind, edit: Option<Look>)
    requires Valid(d) && d.at >= 0
    ensures var s := Items(d, kind); var e := Step(d, CopyItem(kind, edit)); var from := Latest(d.pages, d.at, kind);
      && (e.Some? <==> from.Some?)
      && (e.Some? ==>
            NewItems(d, e.value, kind, s + [Entry(NextNumber(Nums(s)), if edit.Some? then edit.value else from.value)]))
  {
    Current(d);
    assert d.at < |d.pages[|d.pages| - 1]|;
    hide *;
    CopyItemIs(d, kind, edit);
    var from := Latest(d.pages, d.at, kind);
    if from.Some? {
      AppendedLast(d, kind, from.value, edit);
      ItemsSet(d, kind, Appended(Items(d, kind), from.value, edit));
    }
  }

  lemma CopyItemIs(d: Document, kind: Kind, edit: Option<Look>)
    requires d.pages != [] && 0 <= d.at < |Last(d)|
    ensures var from := Latest(d.pages, d.at, kind);
      Step(d, CopyItem(kind, edit)) ==
        if from.None? then None else Some(SetItems(d, kind, Appended(Items(d, kind), from.value, edit)))
  {
    hide Latest, SetItems, Appended, Items, Last;
  }

  /** A command with a number changes the items of its kind only. */
  lemma ItemsOnly(d: Document, c: Command)
    requires Valid(d) && d.at >= 0 && (c.ItemNumber? || c.CopyItemNumber?)
    ensures var e := Step(d, c); e.Some? ==> exists s :: NewItems(d, e.value, c.kind, s)
  {
    hide *;
    Current(d);
    ItemsSetBy(d, c);
  }

  lemma ItemsSetBy(d: Document, c: Command)
    requires d.pages != [] && 0 <= d.at < |Last(d)| && (c.ItemNumber? || c.CopyItemNumber?)
    ensures var e := Step(d, c); e.Some? ==> exists s :: NewItems(d, e.value, c.kind, s)
  {
    var e := Step(d, c);
    if e.Some? {
      match c
      case ItemNumber(kind, num, edit) =>
        var s := Fetch(Items(d, kind), num, PLAIN);
        ItemsSet(d, kind, SetBody(s, Lookup(s, num), edit));
      case CopyItemNumber(kind, num, edit) =>
        ItemsSet(d, kind, Appended(Items(d, kind), LookOf(Items(d, kind), num).value, edit));
    }
  }

  /** The commands for the axes change those of the edited graph: to what they name, or to those of the graph
      before it. */
  lemma AxesEdited(d: Document, look: Look)
    requires Valid(d) && d.at >= 0
    ensures var e := Step(d, Axes(look));
      e.Some? && OnlyThisGraph(d, e.value) && Edited(e.value) == Edited(d).(axes := look)
    ensures var e := Step(d, InheritAxes);
      && (e.None? <==> d.at == 0 && forall n :: 0 <= n < |d.pages| - 1 ==> d.pages[n] == [])
      && (e.Some? ==> OnlyThisGraph(d, e.value))
      && (e.Some? ==> exists b :: IsBefore(d.pages, d.at, b) && Edited(e.value) == Edited(d).(axes := b.axes))
  {
    Current(d);
    AxesSet(d, look);
    GraphBeforeMeans(d.pages, d.at);
    var from := GraphBefore(d.pages, d.at);
    if from.Some? { AxesSet(d, from.value.axes); }
    hide Valid, SetAxes, OnlyThisGraph, Edited, GraphBefore, IsBefore;
  }

  lemma AxesSet(d: Document, look: Look)
    requires d.pages != [] && 0 <= d.at < |Last(d)|
    ensures OnlyThisGraph(d, SetAxes(d, look)) && Edited(SetAxes(d, look)) == Edited(d).(axes := look)
  {
  }
}
