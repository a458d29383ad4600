/** 12_System_And_Process_Info/proc_tree_view.c: drawing the tree of all processes.

    printHierarchy() takes the children of a process out of the table by setting their
    `taken` flags, then prints them, descending into those that still had children. */
module ProcTree {
  import opened Collections

  datatype Info = Info(pid: string, ppid: string)

  type Table = seq<Info>

  /** The flags of struct ProcessInfo. */
  datatype Flags = Flags(taken: seq<bool>, parent: seq<bool>)

  ghost predicate Fit(t: Table, f: Flags) {
    |f.taken| == |f.parent| == |t|
  }

  ghost predicate IsClear(b: bool) { !b }

  ghost function Untaken(f: Flags): nat { Count(f.taken, IsClear) }

  // ---------- what the traversal does, as a function ----------

  /** The first untaken entry with this parent, or |t|. */
  function FirstChild(t: Table, taken: seq<bool>, pid: string, from: nat): (i: nat)
    requires |taken| == |t| && from <= |t|
    ensures from <= i <= |t|
    ensures i < |t| ==> t[i].ppid == pid && !taken[i]
    ensures forall j :: from <= j < i ==> t[j].ppid != pid || taken[j]
    decreases |t| - from
  {
    if from == |t| || (t[from].ppid == pid && !taken[from]) then from else FirstChild(t, taken, pid, from + 1)
  }

  predicate HasChildren(t: Table, taken: seq<bool>, pid: string)
    requires |taken| == |t|
  {
    FirstChild(t, taken, pid, 0) < |t|
  }

  /** Entry i is taken, and marked as a parent if untaken entries have it for their parent. */
  function Take(t: Table, f: Flags, i: nat): (r: Flags)
    requires |f.taken| == |f.parent| == |t| && i < |t|
    ensures |r.taken| == |r.parent| == |t|
  {
    var taken := f.taken[i := true];
    Flags(taken, if HasChildren(t, taken, t[i].pid) then f.parent[i := true] else f.parent)
  }

  lemma TakeCounts(t: Table, f: Flags, i: nat)
    requires Fit(t, f) && i < |t| && !f.taken[i]
    ensures Untaken(Take(t, f, i)) == Untaken(f) - 1
  {
    CountUpdate(f.taken, IsClear, i, true);
  }

  datatype Collected = Collected(kids: seq<nat>, flags: Flags)

  ghost function Collect(t: Table, f: Flags, pid: string): (r: Collected)
    requires Fit(t, f)
    ensures Fit(t, r.flags) && Untaken(r.flags) == Untaken(f) - |r.kids|
    ensures forall i :: 0 <= i < |r.kids| ==> r.kids[i] < |t|
    decreases Untaken(f)
  {
    var i := FirstChild(t, f.taken, pid, 0);
    if i == |t| then Collected([], f)
    else
      TakeCounts(t, f, i);
      var more := Collect(t, Take(t, f, i), pid);
      Collected([i] + more.kids, more.flags)
  }

  datatype Walked = Walked(order: seq<nat>, flags: Flags)

  /** The processes printed below and including p, in order. */
  ghost function Walk(t: Table, f: Flags, p: nat): (r: Walked)
    requires Fit(t, f) && p < |t|
    ensures Fit(t, r.flags) && Untaken(r.flags) <= Untaken(f)
    decreases Untaken(f), 0
  {
    var c := Collect(t, f, t[p].pid);
    if c.kids == [] then Walked([p], c.flags)
    else
      var r := WalkAll(t, c.flags, c.kids);
      Walked([p] + r.order, r.flags)
  }

  ghost function WalkAll(t: Table, f: Flags, kids: seq<nat>): (r: Walked)
    requires Fit(t, f) && forall i :: 0 <= i < |kids| ==> kids[i] < |t|
    ensures Fit(t, r.flags) && Untaken(r.flags) <= Untaken(f)
    decreases Untaken(f), |kids| + 1
  {
    if kids == [] then Walked([], f)
    else
      var first := WalkKid(t, f, kids[0]);
      var rest := WalkAll(t, first.flags, kids[1..]);
      Walked(first.order + rest.order, rest.flags)
  }

  ghost function WalkKid(t: Table, f: Flags, kid: nat): (r: Walked)
    requires Fit(t, f) && kid < |t|
    ensures Fit(t, r.flags) && Untaken(r.flags) <= Untaken(f)
    decreases Untaken(f), 1
  {
    if f.parent[kid] then Walk(t, f, kid) else Walked([kid], f)
  }

  lemma CollectSplits(t: Table, f: Flags, pid: string)
    requires Fit(t, f)
    ensures var i := FirstChild(t, f.taken, pid, 0);
            if i == |t| then Collect(t, f, pid) == Collected([], f)
            else
              var more := Collect(t, Take(t, f, i), pid);
              Collect(t, f, pid) == Collected([i] + more.kids, more.flags)
  {
  }

  lemma WalkAllSplits(t: Table, f: Flags, kids: seq<nat>)
    requires Fit(t, f) && (forall i :: 0 <= i < |kids| ==> kids[i] < |t|) && kids != []
    ensures var first := WalkKid(t, f, kids[0]);
            var rest := WalkAll(t, first.flags, kids[1..]);
            WalkAll(t, f, kids) == Walked(first.order + rest.order, rest.flags)
  {
  }

  lemma WalkAllOfNone(t: Table, f: Flags)
    requires Fit(t, f)
    ensures WalkAll(t, f, []) == Walked([], f)
  {
  }

  lemma WalkIsAll(t: Table, f: Flags, p: nat)
    requires Fit(t, f) && p < |t|
    ensures var c := Collect(t, f, t[p].pid);
            var r := WalkAll(t, c.flags, c.kids);
            Walk(t, f, p) == Walked([p] + r.order, r.flags)
  {
  }

  // ---------- what is printed, and where ----------

  /** The arguments of printHierarchy(), and indentLevels when it is called: the column in which
      the pid is to stand, the open levels, and whether the process is the first and the last of its
      parent's collected children, and one of several. */
  datatype Place = Place(column: nat, levels: seq<nat>, first: bool, last: bool, multi: bool)

  /** main() calls it like this. */
  const TOP := Place(0, [], true, true, true)

  /** A process on the display: `kids` children are printed below it; one that is not descended into
      ends its line. */
  datatype Shown = Shown(proc: nat, place: Place, kids: nat, descended: bool)

  function ChildColumn(t: Table, p: nat, place: Place): nat
    requires p < |t|
  {
    place.column + 3 + |t[p].pid|
  }

  function InnerLevels(place: Place): seq<nat> {
    if place.multi then place.levels + [place.column] else place.levels
  }

  function ChildPlace(t: Table, p: nat, place: Place, i: nat, n: nat): Place
    requires p < |t|
  {
    Place(ChildColumn(t, p, place), InnerLevels(place), i == 0, i + 1 == n, n > 1)
  }

  ghost function Draw(t: Table, f: Flags, p: nat, place: Place): seq<Shown>
    requires Fit(t, f) && p < |t|
    decreases Untaken(f), 0
  {
    var c := Collect(t, f, t[p].pid);
    var me := Shown(p, place, |c.kids|, true);
    if c.kids == [] then [me] else [me] + DrawAll(t, c.flags, c.kids, 0, p, place)
  }

  /** The children of p from number i on. */
  ghost function DrawAll(t: Table, f: Flags, kids: seq<nat>, i: nat, p: nat, place: Place): seq<Shown>
    requires Fit(t, f) && i <= |kids| && p < |t| && forall i :: 0 <= i < |kids| ==> kids[i] < |t|
    decreases Untaken(f), |kids| - i + 1
  {
    if i == |kids| then []
    else
      DrawKid(t, f, kids[i], ChildPlace(t, p, place, i, |kids|))
      + DrawAll(t, WalkKid(t, f, kids[i]).flags, kids, i + 1, p, place)
  }

  ghost function DrawKid(t: Table, f: Flags, kid: nat, at: Place): seq<Shown>
    requires Fit(t, f) && kid < |t|
    decreases Untaken(f), 1
  {
    if f.parent[kid] then Draw(t, f, kid, at) else [Shown(kid, at, 0, false)]
  }

  /** The blanks before a header, with a marker in the column of each open level. */
  function Spacing(size: nat, levels: seq<nat>): string {
    seq(size, k => if k > 0 && k + 2 in levels then '|' else ' ')
  }

  function Gap(at: Place): string {
    if at.first || at.column < 3 then "" else Spacing(at.column - 3, at.levels)
  }

  function Header(at: Place): string {
    if at.first then "" else if at.last then " `-" else " |-"
  }

  function Connector(s: Shown): string {
    if !s.descended then "\n" else if s.kids > 1 then "-+-" else "---"
  }

  function Pid(t: Table, p: nat): string { if p < |t| then t[p].pid else "" }

  /** What is printed for one process. */
  function Piece(t: Table, s: Shown): string {
    Gap(s.place) + Header(s.place) + Pid(t, s.proc) + Connector(s)
  }

  function TextOf(t: Table, shown: seq<Shown>): string {
    if shown == [] then ""
    else TextOf(t, shown[..|shown| - 1]) + Piece(t, shown[|shown| - 1])
  }

  lemma TextOfMore(t: Table, shown: seq<Shown>, s: Shown)
    ensures TextOf(t, shown + [s]) == TextOf(t, shown) + Piece(t, s)
  {
    assert (shown + [s])[..|shown|] == shown;
    hide Piece;
  }

  lemma {:induction false} TextOfAppend(t: Table, a: seq<Shown>, b: seq<Shown>)
    ensures TextOf(t, a + b) == TextOf(t, a) + TextOf(t, b)
  {
    if b == [] {
      assert a + b == a;
    } else {
      TextOfAppend(t, a, b[..|b| - 1]);
      LastPiece(t, a, b[..|b| - 1], b[|b| - 1]);
      hide TextOf;
      LastSplits(b);
    }
  }

  lemma LastSplits<T>(s: seq<T>)
    requires s != []
    ensures s[..|s| - 1] + [s[|s| - 1]] == s
  {
  }

  lemma LastPiece(t: Table, a: seq<Shown>, b: seq<Shown>, s: Shown)
    requires TextOf(t, a + b) == TextOf(t, a) + TextOf(t, b)
    ensures TextOf(t, a + (b + [s])) == TextOf(t, a) + TextOf(t, b + [s])
  {
    TextOfMore(t, b, s);
    TextOfMore(t, a + b, s);
    hide TextOf, Piece;
    assert a + (b + [s]) == a + b + [s];
    assert TextOf(t, a) + TextOf(t, b) + Piece(t, s) == TextOf(t, a) + (TextOf(t, b) + Piece(t, s));
  }

  lemma Glue(a: string, b: string, c: string, d: string, e: string)
    ensures a + b + c + d + e == a + (b + c + d + e)
    ensures a + (b + c) + d + e == a + b + c + d + e
    ensures b == [] && c == [] ==> a + b + c == a
  {
  }

  lemma TextOfOne(t: Table, s: Shown)
    ensures TextOf(t, [s]) == Piece(t, s)
  {
    assert [s][..0] == [];
    hide Piece;
  }

  lemma DrawAllSplits(t: Table, f: Flags, kids: seq<nat>, i: nat, p: nat, place: Place)
    requires Fit(t, f) && i < |kids| && p < |t| && forall i :: 0 <= i < |kids| ==> kids[i] < |t|
    ensures DrawAll(t, f, kids, i, p, place)
            == DrawKid(t, f, kids[i], ChildPlace(t, p, place, i, |kids|))
               + DrawAll(t, WalkKid(t, f, kids[i]).flags, kids, i + 1, p, place)
  {
  }

  lemma DrawAllOfNone(t: Table, f: Flags, kids: seq<nat>, p: nat, place: Place)
    requires Fit(t, f) && p < |t| && forall i :: 0 <= i < |kids| ==> kids[i] < |t|
    ensures DrawAll(t, f, kids, |kids|, p, place) == []
  {
  }

  lemma DrawIsAll(t: Table, f: Flags, p: nat, place: Place)
    requires Fit(t, f) && p < |t|
    ensures var c := Collect(t, f, t[p].pid);
            Draw(t, f, p, place) == [Shown(p, place, |c.kids|, true)] + DrawAll(t, c.flags, c.kids, 0, p, place)
  {
    DrawAllOfNone(t, Collect(t, f, t[p].pid).flags, [], p, place);
  }

  ghost function Procs(shown: seq<Shown>): seq<nat> {
    seq(|shown|, i requires 0 <= i < |shown| => shown[i].proc)
  }

  /** What is displayed are the processes of the traversal, in its order. */
  lemma {:induction false} DrawIsWalk(t: Table, f: Flags, p: nat, place: Place)
    requires Fit(t, f) && p < |t|
    ensures Procs(Draw(t, f, p, place)) == Walk(t, f, p).order
    decreases Untaken(f), 0
  {
    var c := Collect(t, f, t[p].pid);
    DrawIsAll(t, f, p, place);
    WalkIsAll(t, f, p);
    hide Draw, DrawAll, Walk, WalkAll, Collect, Untaken;
    if c.kids == [] {
      DrawAllOfNone(t, c.flags, c.kids, p, place);
      WalkAllOfNone(t, c.flags);
    } else {
      DrawAllIsWalk(t, c.flags, c.kids, 0, p, place);
    }
    assert c.kids[0..] == c.kids;
  }

  lemma {:induction false} DrawAllIsWalk(t: Table, f: Flags, kids: seq<nat>, i: nat, p: nat, place: Place)
    requires Fit(t, f) && i <= |kids| && p < |t| && forall i :: 0 <= i < |kids| ==> kids[i] < |t|
    ensures Procs(DrawAll(t, f, kids, i, p, place)) == WalkAll(t, f, kids[i..]).order
    decreases Untaken(f), |kids| - i + 1
  {
    if i == |kids| {
      DrawAllOfNone(t, f, kids, p, place);
      WalkAllOfNone(t, f);
    } else {
      DrawAllSplits(t, f, kids, i, p, place);
      WalkAllSplits(t, f, kids[i..]);
      DrawKidIsWalk(t, f, kids[i], ChildPlace(t, p, place, i, |kids|));
      hide Draw, DrawAll, DrawKid, Walk, WalkAll, WalkKid, Untaken, ChildPlace;
      assert kids[i..][1..] == kids[i + 1..];
      DrawAllIsWalk(t, WalkKid(t, f, kids[i]).flags, kids, i + 1, p, place);
    }
  }

  lemma {:induction false} DrawKidIsWalk(t: Table, f: Flags, kid: nat, at: Place)
    requires Fit(t, f) && kid < |t|
    ensures Procs(DrawKid(t, f, kid, at)) == WalkKid(t, f, kid).order
    decreases Untaken(f), 1
  {
    if f.parent[kid] {
      DrawIsWalk(t, f, kid, at);
    }
  }

  // ---------- the program ----------

  /** getSpacing() and the loop over indentLevels that puts in the markers. */
  method ChildSpacing(size: nat, indentLevels: seq<nat>) returns (spacing: array<char>)
    requires forall l :: l in indentLevels ==> l - 2 < size
    ensures fresh(spacing) && spacing.Length == size + 1 && spacing[size] == '\0'
    ensures forall k :: 0 <= k < size ==> spacing[k] == if k > 0 && k + 2 in indentLevels then '|' else ' '
  {
    spacing := new char[size + 1](i => ' ');
    spacing[size] := '\0';
    var i := 0;
    while i < |indentLevels|
      invariant 0 <= i <= |indentLevels| && spacing[size] == '\0'
      invariant forall k :: 0 <= k < size ==> spacing[k] == if k > 0 && k + 2 in indentLevels[..i] then '|' else ' '
    {
      assert indentLevels[i] in indentLevels && indentLevels[..i + 1] == indentLevels[..i] + [indentLevels[i]];
      if indentLevels[i] > 2 {
        spacing[indentLevels[i] - 2] := '|';
      }
      i := i + 1;
    }
  }

  class Display {
    const dirList: Table
    var flags: Flags
    var indentLevels: seq<nat>
    var out: string  // standard output
    ghost var shown: seq<Shown>

    constructor (dirList: Table, flags: Flags)
      requires Fit(dirList, flags)
      ensures Valid() && this.dirList == dirList && this.flags == flags
      ensures indentLevels == [] && out == "" && shown == []
    {
      this.dirList, this.flags, indentLevels, out, shown := dirList, flags, [], "", [];
    }

    ghost predicate Valid()
      reads this
    {
      Fit(dirList, flags)
    }

    /** The index of the child taken, or |dirList| where the source returns NULL. */
    method FindChild(pid: string) returns (i: nat)
      requires Valid()
      modifies this`flags
      ensures Valid() && i == FirstChild(dirList, old(flags.taken), pid, 0)
      ensures flags == if i < |dirList| then old(flags).(taken := old(flags.taken)[i := true]) else old(flags)
    {
      i := 0;
      while i < |dirList|
        invariant 0 <= i <= |dirList| && flags == old(flags)
        invariant FirstChild(dirList, flags.taken, pid, 0) == FirstChild(dirList, flags.taken, pid, i)
      {
        if dirList[i].ppid == pid && !flags.taken[i] {
          flags := flags.(taken := flags.taken[i := true]);
          return;
        }
        i := i + 1;
      }
    }

    lemma CollectedAppend(start: Flags, children: seq<nat>, child: nat, pid: string)
      requires Valid() && Fit(dirList, start)
      ensures var r := Collect(dirList, flags, pid);
              Collect(dirList, start, pid) == Collected(children + ([child] + r.kids), r.flags) ==>
                Collect(dirList, start, pid) == Collected(children + [child] + r.kids, r.flags)
    {
      hide Collect;
    }

    /** The first loop of printHierarchy(). */
    method CollectChildren(pid: string) returns (children: seq<nat>)
      requires Valid()
      modifies this`flags
      ensures Valid() && Collected(children, flags) == Collect(dirList, old(flags), pid)
    {
      hide FirstChild, Collect, Untaken;
      children := [];
      while true
        invariant Valid()
        invariant var r := Collect(dirList, flags, pid);
                  Collect(dirList, old(flags), pid) == Collected(children + r.kids, r.flags)
        decreases Untaken(flags)
      {
        ghost var before := flags;
        var child := FindChild(pid);
        CollectSplits(dirList, before, pid);
        if child == |dirList| {
          break;
        }
        if HasChildren(dirList, flags.taken, dirList[child].pid) {
          flags := flags.(parent := flags.parent[child := true]);
        }
        assert flags == Take(dirList, before, child);
        TakeCounts(dirList, before, child);
        CollectedAppend(old(flags), children, child, pid);
        children := children + [child];
      }
    }

    /** printHierarchy() displays what Draw() says, on any table, behind the gap that its caller has
        printed, and leaves one more indentation level exactly when it was told that its process has
        siblings. */
    method PrintHierarchy(parent: nat, initSpacing: nat, firstChild: bool, lastChild: bool, multiChild: bool,
                          ghost before: string)
      requires Valid() && parent < |dirList|
      requires forall l :: l in indentLevels ==> l <= initSpacing
      requires out == before + Gap(Place(initSpacing, indentLevels, firstChild, lastChild, multiChild))
      modifies this
      ensures Valid() && flags == Walk(dirList, old(flags), parent).flags
      ensures var at := Place(initSpacing, old(indentLevels), firstChild, lastChild, multiChild);
              var drawn := Draw(dirList, old(flags), parent, at);
              shown == old(shown) + drawn && out == before + TextOf(dirList, drawn)
      ensures indentLevels == old(indentLevels) + if multiChild then [initSpacing] else []
      decreases Untaken(flags), 0
    {
      hide FirstChild, HasChildren, Take, Collect, WalkAll, WalkKid, DrawAll, DrawKid, Untaken, Gap, TextOf;
      ghost var at := Place(initSpacing, indentLevels, firstChild, lastChild, multiChild);
      ghost var c := Collect(dirList, flags, dirList[parent].pid);
      if multiChild {
        indentLevels := indentLevels + [initSpacing];
      }
      var childLength := initSpacing + 3 + |dirList[parent].pid|;
      var spacing := ChildSpacing(childLength - 3, indentLevels);
      var childSpacing := spacing[..childLength - 3];
      assert childSpacing == Spacing(childLength - 3, InnerLevels(at));
      var children := CollectChildren(dirList[parent].pid);
      PrintHeader(parent, |children|, firstChild, lastChild, at, before);
      ghost var me, levels := Shown(parent, at, |children|, true), indentLevels;
      ghost var drawn := [me];
      ghost var all, walked := DrawAll(dirList, flags, children, 0, parent, at), WalkAll(dirList, flags, children);
      assert children[0..] == children;
      var i := 0;
      while i < |children|
        invariant Valid() && 0 <= i <= |children| && indentLevels == levels && Untaken(flags) <= Untaken(c.flags)
        invariant WalkAll(dirList, flags, children[i..]).flags == walked.flags
        invariant drawn + DrawAll(dirList, flags, children, i, parent, at) == [me] + all
        invariant shown == old(shown) + drawn && out == before + TextOf(dirList, drawn)
      {
        ghost var f := flags;
        WalkAllSplits(dirList, f, children[i..]);
        DrawAllSplits(dirList, f, children, i, parent, at);
        assert children[i..][1..] == children[i + 1..];
        PrintChild(children[i], i, |children|, childLength, childSpacing);
        ghost var kid := DrawKid(dirList, f, children[i], ChildPlace(dirList, parent, at, i, |children|));
        TextOfAppend(dirList, drawn, kid);
        drawn := drawn + kid;
        i := i + 1;
      }
      WalkAllOfNone(dirList, flags);
      DrawAllOfNone(dirList, flags, children, parent, at);
      assert children[i..] == [];
      WalkIsAll(dirList, old(flags), parent);
      DrawIsAll(dirList, old(flags), parent, at);
      assert drawn + [] == drawn == Draw(dirList, old(flags), parent, at);
    }

    /** The process itself, behind its gap. */
    method PrintHeader(parent: nat, n: nat, firstChild: bool, lastChild: bool, ghost at: Place, ghost before: string)
      requires Valid() && parent < |dirList| && out == before + Gap(at)
      requires at.first == firstChild && at.last == lastChild
      modifies this`out, this`shown
      ensures shown == old(shown) + [Shown(parent, at, n, true)]
      ensures out == before + TextOf(dirList, [Shown(parent, at, n, true)])
    {
      ghost var me := Shown(parent, at, n, true);
      TextOfOne(dirList, me);
      if !firstChild {
        out := out + if lastChild then " `-" else " |-";
      }
      out := out + dirList[parent].pid + if n > 1 then "-+-" else "---";
      shown := shown + [me];
      hide Gap, TextOf;
      Glue(before, Gap(at), Header(at), dirList[parent].pid, Connector(me));
    }

    /** One round of printHierarchy()'s last loop; a descent's indentation level is popped. */
    method PrintChild(child: nat, i: nat, n: nat, childLength: nat, childSpacing: string)
      requires Valid() && child < |dirList| && i < n && childLength >= 3
      requires forall l :: l in indentLevels ==> l <= childLength
      requires childSpacing == Spacing(childLength - 3, indentLevels)
      modifies this
      ensures Valid() && flags == WalkKid(dirList, old(flags), child).flags
      ensures var at := Place(childLength, indentLevels, i == 0, i + 1 == n, n > 1);
              var drawn := DrawKid(dirList, old(flags), child, at);
              shown == old(shown) + drawn && out == old(out) + TextOf(dirList, drawn)
      ensures indentLevels == old(indentLevels)
      decreases Untaken(flags), 1
    {
      hide Walk, Draw, Untaken, TextOf;
      ghost var at := Place(childLength, indentLevels, i == 0, i + 1 == n, n > 1);
      if flags.parent[child] {
        ghost var before := out;
        if i > 0 {
          out := out + childSpacing;
        }
        PrintHierarchy(child, childLength, i == 0, i == n - 1, n > 1, before);
        if n > 1 {
          indentLevels := indentLevels[..|indentLevels| - 1];
        }
        assert indentLevels == at.levels;
      } else {
        ghost var me := Shown(child, at, 0, false);
        TextOfOne(dirList, me);
        ghost var before := out;
        if i > 0 {
          out := out + childSpacing + if n - 1 != i then " |-" else " `-";
        }
        out := out + dirList[child].pid + "\n";
        shown := shown + [me];
        Glue(before, Gap(at), Header(at), dirList[child].pid, Connector(me));
      }
    }
  }

  // ---------- every table: nothing is printed twice ----------

  ghost predicate NoDup(s: seq<nat>) {
    forall i, j :: 0 <= i < j < |s| ==> s[i] != s[j]
  }

  /** What the traversal adds was untaken before and is taken afterwards, and stays so. */
  ghost predicate NewlyTaken(f: Flags, r: Flags, x: nat) {
    x < |f.taken| == |r.taken| && !f.taken[x] && r.taken[x]
  }

  ghost predicate KeepsTaken(f: Flags, r: Flags) {
    |f.taken| == |r.taken| && forall x :: 0 <= x < |f.taken| && f.taken[x] ==> r.taken[x]
  }

  lemma AppendNoDup(a: seq<nat>, b: seq<nat>)
    requires NoDup(a) && NoDup(b) && forall i, j :: 0 <= i < |a| && 0 <= j < |b| ==> a[i] != b[j]
    ensures NoDup(a + b)
  {
  }

  lemma TakeTakes(t: Table, f: Flags, i: nat)
    requires Fit(t, f) && i < |t| && !f.taken[i]
    ensures KeepsTaken(f, Take(t, f, i)) && NewlyTaken(f, Take(t, f, i), i)
  {
    hide HasChildren;
  }

  lemma {:induction false} CollectTakes(t: Table, f: Flags, pid: string)
    requires Fit(t, f)
    ensures var c := Collect(t, f, pid);
            && NoDup(c.kids) && KeepsTaken(f, c.flags)
            && forall i :: 0 <= i < |c.kids| ==> NewlyTaken(f, c.flags, c.kids[i])
    decreases Untaken(f)
  {
    CollectSplits(t, f, pid);
    hide Collect, FirstChild, Take, Untaken;
    var i := FirstChild(t, f.taken, pid, 0);
    if i < |t| {
      TakeCounts(t, f, i);
      TakeTakes(t, f, i);
      CollectTakes(t, Take(t, f, i), pid);
      AppendNoDup([i], Collect(t, Take(t, f, i), pid).kids);
      hide NoDup;
    }
  }

  /** On any table, cyclic or not: below p nothing is printed twice. */
  lemma {:induction false} NothingTwice(t: Table, f: Flags, p: nat)
    requires Fit(t, f) && p < |t|
    ensures var r := Walk(t, f, p);
            && r.order != [] && r.order[0] == p && NoDup(r.order[1..]) && KeepsTaken(f, r.flags)
            && forall i :: 0 < i < |r.order| ==> NewlyTaken(f, r.flags, r.order[i])
    decreases Untaken(f), 0
  {
    WalkIsAll(t, f, p);
    var c := Collect(t, f, t[p].pid);
    CollectTakes(t, f, t[p].pid);
    hide Walk, WalkAll, Collect;
    if c.kids == [] {
      WalkAllOfNone(t, c.flags);
    } else {
      AllNothingTwice(t, c.flags, c.kids);
    }
    var r := WalkAll(t, c.flags, c.kids);
    assert ([p] + r.order)[1..] == r.order;
    forall i | 0 <= i < |r.order| ensures NewlyTaken(f, r.flags, r.order[i]) {
      if r.order[i] in c.kids {
        var j :| 0 <= j < |c.kids| && c.kids[j] == r.order[i];
        assert NewlyTaken(f, c.flags, c.kids[j]);
      }
    }
  }

  lemma {:induction false} KidNothingTwice(t: Table, f: Flags, kid: nat)
    requires Fit(t, f) && kid < |t| && f.taken[kid]
    ensures var r := WalkKid(t, f, kid);
            && r.order != [] && r.order[0] == kid && NoDup(r.order) && KeepsTaken(f, r.flags)
            && forall i :: 0 < i < |r.order| ==> NewlyTaken(f, r.flags, r.order[i])
    decreases Untaken(f), 1
  {
    if f.parent[kid] {
      NothingTwice(t, f, kid);
      var order := Walk(t, f, kid).order;
      assert forall i :: 0 < i < |order| ==> order[i] == order[1..][i - 1];
    }
  }

  lemma {:induction false} AllNothingTwice(t: Table, f: Flags, kids: seq<nat>)
    requires Fit(t, f) && NoDup(kids) && forall i :: 0 <= i < |kids| ==> kids[i] < |t| && f.taken[kids[i]]
    ensures var r := WalkAll(t, f, kids);
            && NoDup(r.order) && KeepsTaken(f, r.flags)
            && forall i :: 0 <= i < |r.order| ==> r.order[i] in kids || NewlyTaken(f, r.flags, r.order[i])
    decreases Untaken(f), |kids| + 1
  {
    if kids == [] {
      WalkAllOfNone(t, f);
    } else {
      WalkAllSplits(t, f, kids);
      KidNothingTwice(t, f, kids[0]);
      hide Walk, WalkAll, WalkKid, Untaken;
      var first := WalkKid(t, f, kids[0]);
      AllNothingTwice(t, first.flags, kids[1..]);
      var rest := WalkAll(t, first.flags, kids[1..]);
      assert kids[0] !in kids[1..];
      hide NoDup;
      FirstApart(f, first, rest, kids);
      AppendNoDup(first.order, rest.order);
    }
  }

  /** What was taken by the first child's descent is not found by the others. */
  lemma FirstApart(f: Flags, first: Walked, rest: Walked, kids: seq<nat>)
    requires kids != [] && kids[0] !in kids[1..] && first.order != [] && first.order[0] == kids[0]
    requires |f.taken| == |first.flags.taken| && forall i :: 0 <= i < |kids| ==> kids[i] < |f.taken| && f.taken[kids[i]]
    requires KeepsTaken(f, first.flags)
    requires forall i :: 0 < i < |first.order| ==> NewlyTaken(f, first.flags, first.order[i])
    requires forall i :: 0 <= i < |rest.order| ==>
               rest.order[i] in kids[1..] || NewlyTaken(first.flags, rest.flags, rest.order[i])
    ensures forall i, j :: 0 <= i < |first.order| && 0 <= j < |rest.order| ==> first.order[i] != rest.order[j]
  {
    forall i, j | 0 <= i < |first.order| && 0 <= j < |rest.order| ensures first.order[i] != rest.order[j] {
      assert first.flags.taken[first.order[i]];
      if rest.order[j] in kids[1..] && i > 0 {
        assert f.taken[rest.order[j]];
      }
    }
  }

  // ---------- distinct pids and no cycles: the preorder of the tree ----------

  /** Distinct pids and an acyclic parent relation; `depth`, which rises from parent to child,
      witnesses the latter (|t| bounds it for some witness if there is one at all). */
  ghost predicate Forest(t: Table, depth: seq<nat>) {
    && |depth| == |t| && (forall i :: 0 <= i < |t| ==> depth[i] <= |t|)
    && (forall i, j :: 0 <= i < j < |t| ==> t[i].pid != t[j].pid)
    && (forall i, j :: 0 <= i < |t| && 0 <= j < |t| && t[i].ppid == t[j].pid ==> depth[i] > depth[j])
  }

  /** The entries from `from` on with this parent that are not in `gone`, in table order. */
  ghost function Children(t: Table, gone: seq<bool>, pid: string, from: nat): (kids: seq<nat>)
    requires |gone| == |t| && from <= |t|
    ensures forall i :: 0 <= i < |kids| ==> from <= kids[i] < |t| && t[kids[i]].ppid == pid && !gone[kids[i]]
    decreases |t| - from
  {
    if from == |t| then []
    else if t[from].ppid == pid && !gone[from] then [from] + Children(t, gone, pid, from + 1)
    else Children(t, gone, pid, from + 1)
  }

  lemma {:induction false} ChildrenAreAll(t: Table, gone: seq<bool>, pid: string, from: nat)
    requires |gone| == |t| && from <= |t|
    ensures NoDup(Children(t, gone, pid, from))
    ensures forall x :: from <= x < |t| && t[x].ppid == pid && !gone[x] ==> x in Children(t, gone, pid, from)
    decreases |t| - from
  {
    if from < |t| {
      ChildrenAreAll(t, gone, pid, from + 1);
    }
  }

  /** The preorder of p's tree, without the entries in `gone` and all below them. */
  ghost function Preorder(t: Table, depth: seq<nat>, gone: seq<bool>, p: nat): seq<nat>
    requires Forest(t, depth) && |gone| == |t| && p < |t|
    decreases |t| - depth[p], 1, 0
  {
    [p] + PreorderAll(t, depth, gone, Children(t, gone, t[p].pid, 0), depth[p])
  }

  ghost function PreorderAll(t: Table, depth: seq<nat>, gone: seq<bool>, kids: seq<nat>, above: nat): seq<nat>
    requires Forest(t, depth) && |gone| == |t|
    requires forall i :: 0 <= i < |kids| ==> kids[i] < |t| && depth[kids[i]] > above
    decreases |t| - above, 0, |kids|
  {
    if kids == [] then []
    else Preorder(t, depth, gone, kids[0]) + PreorderAll(t, depth, gone, kids[1..], above)
  }

  /** Nothing is gone: the preorder of the whole tree. */
  ghost function Whole(t: Table): (gone: seq<bool>)
    ensures |gone| == |t| && forall i :: 0 <= i < |t| ==> !gone[i]
  {
    seq(|t|, _ => false)
  }

  ghost predicate IsParent(t: Table, y: nat, x: nat) {
    x < |t| && y < |t| && t[x].ppid == t[y].pid
  }

  /** a is x or an ancestor of x. */
  ghost predicate Under(t: Table, depth: seq<nat>, x: nat, a: nat)
    requires Forest(t, depth) && x < |t| && a < |t|
    decreases depth[x]
  {
    x == a || exists y: nat :: IsParent(t, y, x) && Under(t, depth, y, a)
  }

  lemma {:induction false} UnderIsDeeper(t: Table, depth: seq<nat>, x: nat, a: nat)
    requires Forest(t, depth) && x < |t| && a < |t| && Under(t, depth, x, a)
    ensures depth[x] >= depth[a] && (x != a ==> depth[x] > depth[a])
    decreases depth[x]
  {
    if x != a {
      var y: nat :| IsParent(t, y, x) && Under(t, depth, y, a);
      UnderIsDeeper(t, depth, y, a);
    }
  }

  /** The way up from x is unique, so that it passes a process through just one of its children. */
  lemma {:induction false} SiblingsApart(t: Table, depth: seq<nat>, x: nat, a: nat, b: nat, p: nat)
    requires Forest(t, depth) && x < |t| && IsParent(t, p, a) && IsParent(t, p, b) && a != b
    requires Under(t, depth, x, a)
    ensures !Under(t, depth, x, b)
    decreases depth[x]
  {
    if Under(t, depth, x, b) {
      if x == a || x == b {
        var other := if x == a then b else a;
        var y: nat :| IsParent(t, y, x) && Under(t, depth, y, other);
        assert y == p;
        UnderIsDeeper(t, depth, p, other);
      } else {
        var y: nat :| IsParent(t, y, x) && Under(t, depth, y, a);
        var z: nat :| IsParent(t, z, x) && Under(t, depth, z, b);
        assert y == z;
        SiblingsApart(t, depth, y, a, b, p);
      }
      assert false;
    }
  }

  lemma {:induction false} UnderParent(t: Table, depth: seq<nat>, x: nat, kid: nat, p: nat)
    requires Forest(t, depth) && x < |t| && IsParent(t, p, kid) && Under(t, depth, x, kid)
    ensures Under(t, depth, x, p)
    decreases depth[x]
  {
    if x == kid {
      assert Under(t, depth, p, p);
    } else {
      var y: nat :| IsParent(t, y, x) && Under(t, depth, y, kid);
      UnderParent(t, depth, y, kid, p);
    }
  }

  /** x is p, or neither x nor an ancestor of x below p is gone. */
  ghost predicate Reached(t: Table, depth: seq<nat>, gone: seq<bool>, x: nat, p: nat)
    requires Forest(t, depth) && |gone| == |t| && x < |t| && p < |t|
    decreases depth[x]
  {
    x == p || (!gone[x] && exists y: nat :: IsParent(t, y, x) && Reached(t, depth, gone, y, p))
  }

  lemma {:induction false} ReachedWhole(t: Table, depth: seq<nat>, gone: seq<bool>, x: nat, p: nat)
    requires Forest(t, depth) && |gone| == |t| && x < |t| && p < |t|
    ensures Reached(t, depth, gone, x, p) ==> Under(t, depth, x, p)
    ensures Under(t, depth, x, p) ==> Reached(t, depth, Whole(t), x, p)
    decreases depth[x]
  {
    forall y: nat | IsParent(t, y, x)
      ensures Reached(t, depth, gone, y, p) ==> Under(t, depth, y, p)
      ensures Under(t, depth, y, p) ==> Reached(t, depth, Whole(t), y, p)
    {
      ReachedWhole(t, depth, gone, y, p);
    }
  }

  lemma {:induction false} ReachedChild(t: Table, depth: seq<nat>, gone: seq<bool>, x: nat, p: nat) returns (kid: nat)
    requires Forest(t, depth) && |gone| == |t| && x < |t| && p < |t| && Reached(t, depth, gone, x, p) && x != p
    ensures IsParent(t, p, kid) && !gone[kid] && Reached(t, depth, gone, x, kid)
    decreases depth[x]
  {
    var y: nat :| IsParent(t, y, x) && Reached(t, depth, gone, y, p);
    if y == p {
      kid := x;
    } else {
      kid := ReachedChild(t, depth, gone, y, p);
    }
  }

  lemma {:induction false} ReachedParent(t: Table, depth: seq<nat>, gone: seq<bool>, x: nat, kid: nat, p: nat)
    requires Forest(t, depth) && |gone| == |t| && x < |t| && IsParent(t, p, kid) && !gone[kid]
    requires Reached(t, depth, gone, x, kid)
    ensures Reached(t, depth, gone, x, p)
    decreases depth[x]
  {
    if x == kid {
      assert Reached(t, depth, gone, p, p);
    } else {
      var y: nat :| IsParent(t, y, x) && Reached(t, depth, gone, y, kid);
      ReachedParent(t, depth, gone, y, kid, p);
    }
  }

  // ---------- the traversal follows the preorder ----------

  /** Below p just the entries in `gone` are taken. */
  ghost predicate Fresh(t: Table, depth: seq<nat>, gone: seq<bool>, f: Flags, p: nat)
    requires Forest(t, depth) && |gone| == |t| && Fit(t, f) && p < |t|
  {
    forall x: nat :: x < |t| && x != p && Under(t, depth, x, p) ==> f.taken[x] == gone[x]
  }

  lemma {:induction false} ChildrenFrom(t: Table, gone: seq<bool>, pid: string, from: nat, i: nat)
    requires |gone| == |t| && from <= i < |t| && t[i].ppid == pid && !gone[i]
    requires forall j :: from <= j < i ==> t[j].ppid != pid || gone[j]
    ensures Children(t, gone, pid, from) == [i] + Children(t, gone, pid, i + 1)
    decreases i - from
  {
    if from < i {
      ChildrenFrom(t, gone, pid, from + 1, i);
    }
  }

  lemma {:induction false} NoChildrenFrom(t: Table, gone: seq<bool>, pid: string, from: nat)
    requires |gone| == |t| && from <= |t| && forall j :: from <= j < |t| ==> t[j].ppid != pid || gone[j]
    ensures Children(t, gone, pid, from) == []
    decreases |t| - from
  {
    if from < |t| {
      NoChildrenFrom(t, gone, pid, from + 1);
    }
  }

  /** The children from index k on are still there, with all their own children. */
  ghost predicate Ready(t: Table, gone: seq<bool>, f: Flags, pid: string, k: nat)
    requires |gone| == |t| && Fit(t, f)
  {
    && (forall i :: 0 <= i < |t| && t[i].ppid == pid ==> (f.taken[i] <==> gone[i] || i < k) && t[i].pid != pid)
    && (forall i, j :: k <= i < |t| && 0 <= j < |t| && t[i].ppid == pid && t[j].ppid == t[i].pid ==>
          f.taken[j] == gone[j])
  }

  lemma HasChildrenIff(t: Table, gone: seq<bool>, taken: seq<bool>, pid: string)
    requires |taken| == |gone| == |t| && forall j :: 0 <= j < |t| && t[j].ppid == pid ==> taken[j] == gone[j]
    ensures HasChildren(t, taken, pid) <==> Children(t, gone, pid, 0) != []
  {
    var i := FirstChild(t, taken, pid, 0);
    if i == |t| {
      NoChildrenFrom(t, gone, pid, 0);
    } else {
      ChildrenAreAll(t, gone, pid, 0);
      assert i in Children(t, gone, pid, 0);
    }
  }

  lemma FirstIsFrom(t: Table, gone: seq<bool>, f: Flags, pid: string, k: nat)
    requires |gone| == |t| && Fit(t, f) && k <= |t| && Ready(t, gone, f, pid, k)
    ensures var i := FirstChild(t, f.taken, pid, 0);
            && k <= i && (forall j :: k <= j < i ==> t[j].ppid != pid || gone[j])
            && (i < |t| ==> t[i].ppid == pid && !gone[i])
  {
  }

  lemma TakeFirst(t: Table, gone: seq<bool>, f: Flags, pid: string, k: nat, i: nat)
    requires |gone| == |t| && Fit(t, f) && k <= i < |t| && Ready(t, gone, f, pid, k) && t[i].ppid == pid && !gone[i]
    requires forall j :: k <= j < i ==> t[j].ppid != pid || gone[j]
    ensures var f1 := Take(t, f, i);
            && Ready(t, gone, f1, pid, i + 1)
            && f1.taken == f.taken[i := true]
            && f1.parent == f.parent[i := f.parent[i] || Children(t, gone, t[i].pid, 0) != []]
  {
    HasChildrenIff(t, gone, f.taken[i := true], t[i].pid);
    hide HasChildren, Children;
  }

  /** Collecting finds the children in table order and marks those that are parents themselves. */
  lemma {:induction false} CollectIsChildren(t: Table, gone: seq<bool>, f: Flags, pid: string, k: nat)
    requires |gone| == |t| && Fit(t, f) && k <= |t| && Ready(t, gone, f, pid, k)
    ensures var c := Collect(t, f, pid);
            && c.kids == Children(t, gone, pid, k)
            && (forall x :: 0 <= x < |t| && (t[x].ppid != pid || x < k) ==>
                  c.flags.taken[x] == f.taken[x] && c.flags.parent[x] == f.parent[x])
            && (forall x :: k <= x < |t| && t[x].ppid == pid && !gone[x] ==>
                  (c.flags.parent[x] <==> f.parent[x] || Children(t, gone, t[x].pid, 0) != []))
    decreases |t| - k
  {
    CollectSplits(t, f, pid);
    FirstIsFrom(t, gone, f, pid, k);
    var i := FirstChild(t, f.taken, pid, 0);
    if i == |t| {
      NoChildrenFrom(t, gone, pid, k);
    } else {
      ChildrenFrom(t, gone, pid, k, i);
      TakeFirst(t, gone, f, pid, k, i);
      hide Collect, FirstChild, HasChildren, Children, Ready, Take;
      CollectIsChildren(t, gone, Take(t, f, i), pid, i + 1);
    }
  }

  /** Flags of entries that are not below p are as they were. */
  ghost predicate OnlyBelow(t: Table, depth: seq<nat>, f: Flags, r: Flags, p: nat)
    requires Forest(t, depth) && Fit(t, f) && Fit(t, r) && p < |t|
  {
    forall x: nat :: x < |t| && (x == p || !Under(t, depth, x, p)) ==>
      r.taken[x] == f.taken[x] && r.parent[x] == f.parent[x]
  }

  lemma FreshIsReady(t: Table, depth: seq<nat>, gone: seq<bool>, f: Flags, p: nat)
    requires Forest(t, depth) && |gone| == |t| && Fit(t, f) && p < |t| && Fresh(t, depth, gone, f, p)
    ensures Ready(t, gone, f, t[p].pid, 0)
  {
    var pid := t[p].pid;
    forall i: nat | i < |t| && t[i].ppid == pid ensures f.taken[i] == gone[i] && t[i].pid != pid {
      assert IsParent(t, p, i) && Under(t, depth, p, p) && Under(t, depth, i, p);
    }
    forall i: nat, j: nat | i < |t| && j < |t| && t[i].ppid == pid && t[j].ppid == t[i].pid
      ensures f.taken[j] == gone[j]
    {
      assert IsParent(t, p, i) && Under(t, depth, p, p) && Under(t, depth, i, p);
      assert IsParent(t, i, j) && Under(t, depth, j, p);
      UnderIsDeeper(t, depth, i, p);
    }
  }

  /** What Collect() changed lies just below p, so that everything below its children is as it was. */
  lemma KidStaysFresh(t: Table, depth: seq<nat>, gone: seq<bool>, f: Flags, f1: Flags, p: nat, kid: nat)
    requires Forest(t, depth) && |gone| == |t| && Fit(t, f) && Fit(t, f1) && IsParent(t, p, kid)
    requires Fresh(t, depth, gone, f, p)
    requires forall x :: 0 <= x < |t| && t[x].ppid != t[p].pid ==> f1.taken[x] == f.taken[x]
    ensures Fresh(t, depth, gone, f1, kid)
  {
    forall x: nat | x < |t| && x != kid && Under(t, depth, x, kid) ensures f1.taken[x] == gone[x] {
      UnderParent(t, depth, x, kid, p);
      UnderIsDeeper(t, depth, x, kid);
      if t[x].ppid == t[p].pid {
        var y: nat :| IsParent(t, y, x) && Under(t, depth, y, kid);
        UnderIsDeeper(t, depth, p, kid);
        assert false;
      }
    }
  }

  /** The kids are children of p, a parent among them is marked, and below them all is as it was. */
  ghost predicate KidsReady(t: Table, depth: seq<nat>, gone: seq<bool>, f: Flags, kids: seq<nat>, p: nat)
    requires Forest(t, depth) && |gone| == |t| && Fit(t, f) && p < |t|
  {
    && NoDup(kids)
    && forall i :: 0 <= i < |kids| ==>
         && IsParent(t, p, kids[i]) && Fresh(t, depth, gone, f, kids[i])
         && (Children(t, gone, t[kids[i]].pid, 0) != [] ==> f.parent[kids[i]])
  }

  lemma CollectedAreReady(t: Table, depth: seq<nat>, gone: seq<bool>, f: Flags, p: nat)
    requires Forest(t, depth) && |gone| == |t| && Fit(t, f) && p < |t| && Fresh(t, depth, gone, f, p)
    ensures var c := Collect(t, f, t[p].pid);
            && c.kids == Children(t, gone, t[p].pid, 0) && KidsReady(t, depth, gone, c.flags, c.kids, p)
            && OnlyBelow(t, depth, f, c.flags, p)
  {
    hide Collect;
    FreshIsReady(t, depth, gone, f, p);
    CollectIsChildren(t, gone, f, t[p].pid, 0);
    ChildrenAreAll(t, gone, t[p].pid, 0);
    hide Ready, Children, Fresh;
    var c := Collect(t, f, t[p].pid);
    forall i | 0 <= i < |c.kids| ensures IsParent(t, p, c.kids[i]) && Fresh(t, depth, gone, c.flags, c.kids[i]) {
      KidStaysFresh(t, depth, gone, f, c.flags, p, c.kids[i]);
    }
    forall x: nat | x < |t| && t[x].ppid == t[p].pid ensures Under(t, depth, x, p) && x != p {
      assert IsParent(t, p, x) && Under(t, depth, p, p);
    }
  }

  /** Visiting one child leaves the others ready. */
  lemma OthersStayReady(t: Table, depth: seq<nat>, gone: seq<bool>, f: Flags, r: Flags, kids: seq<nat>, p: nat)
    requires Forest(t, depth) && |gone| == |t| && Fit(t, f) && Fit(t, r) && p < |t| && kids != []
    requires KidsReady(t, depth, gone, f, kids, p) && OnlyBelow(t, depth, f, r, kids[0])
    ensures KidsReady(t, depth, gone, r, kids[1..], p)
  {
    hide Children;
    forall i | 0 < i < |kids|
      ensures Fresh(t, depth, gone, r, kids[i]) && r.parent[kids[i]] == f.parent[kids[i]]
    {
      forall x: nat | x < |t| && Under(t, depth, x, kids[i]) ensures !Under(t, depth, x, kids[0]) {
        SiblingsApart(t, depth, x, kids[i], kids[0], p);
      }
      assert Under(t, depth, kids[i], kids[i]);
    }
  }

  lemma KidBelow(t: Table, depth: seq<nat>, f: Flags, r: Flags, kid: nat, p: nat)
    requires Forest(t, depth) && Fit(t, f) && Fit(t, r) && IsParent(t, p, kid) && OnlyBelow(t, depth, f, r, kid)
    ensures OnlyBelow(t, depth, f, r, p)
  {
    forall x: nat | x < |t| && Under(t, depth, x, kid) && x != kid ensures Under(t, depth, x, p) && x != p {
      UnderParent(t, depth, x, kid, p);
      UnderIsDeeper(t, depth, x, kid);
    }
  }

  /** If just the entries in `gone` are taken below p, the traversal is the preorder of the rest. */
  lemma {:induction false} WalkIsPreorder(t: Table, depth: seq<nat>, gone: seq<bool>, f: Flags, p: nat)
    requires Forest(t, depth) && |gone| == |t| && Fit(t, f) && p < |t| && Fresh(t, depth, gone, f, p)
    ensures Walk(t, f, p).order == Preorder(t, depth, gone, p)
    ensures OnlyBelow(t, depth, f, Walk(t, f, p).flags, p)
    decreases |t| - depth[p], 1, 0
  {
    WalkIsAll(t, f, p);
    CollectedAreReady(t, depth, gone, f, p);
    var kids := Children(t, gone, t[p].pid, 0);
    assert Preorder(t, depth, gone, p) == [p] + PreorderAll(t, depth, gone, kids, depth[p]);
    hide Walk, WalkAll, Collect, Fresh, Children, PreorderAll, KidsReady;
    WalkAllIsPreorder(t, depth, gone, Collect(t, f, t[p].pid).flags, kids, p);
  }

  lemma {:induction false} KidIsPreorder(t: Table, depth: seq<nat>, gone: seq<bool>, f: Flags, kid: nat)
    requires Forest(t, depth) && |gone| == |t| && Fit(t, f) && kid < |t| && Fresh(t, depth, gone, f, kid)
    requires Children(t, gone, t[kid].pid, 0) != [] ==> f.parent[kid]
    ensures WalkKid(t, f, kid).order == Preorder(t, depth, gone, kid)
    ensures OnlyBelow(t, depth, f, WalkKid(t, f, kid).flags, kid)
    decreases |t| - depth[kid], 2, 0
  {
    hide Walk, Fresh, Children;
    if f.parent[kid] {
      WalkIsPreorder(t, depth, gone, f, kid);
    }
  }

  lemma OnlyBelowTwice(t: Table, depth: seq<nat>, f: Flags, g: Flags, r: Flags, p: nat)
    requires Forest(t, depth) && Fit(t, f) && Fit(t, g) && Fit(t, r) && p < |t|
    requires OnlyBelow(t, depth, f, g, p) && OnlyBelow(t, depth, g, r, p)
    ensures OnlyBelow(t, depth, f, r, p)
  {
  }

  lemma {:induction false} WalkAllIsPreorder(t: Table, depth: seq<nat>, gone: seq<bool>, f: Flags, kids: seq<nat>,
                                             p: nat)
    requires Forest(t, depth) && |gone| == |t| && Fit(t, f) && p < |t| && KidsReady(t, depth, gone, f, kids, p)
    requires forall i :: 0 <= i < |kids| ==> kids[i] < |t| && depth[kids[i]] > depth[p]
    ensures WalkAll(t, f, kids).order == PreorderAll(t, depth, gone, kids, depth[p])
    ensures OnlyBelow(t, depth, f, WalkAll(t, f, kids).flags, p)
    decreases |t| - depth[p], 0, |kids|
  {
    if kids == [] {
      WalkAllOfNone(t, f);
      assert OnlyBelow(t, depth, f, f, p);
    } else {
      WalkAllSplits(t, f, kids);
      assert IsParent(t, p, kids[0]) && Fresh(t, depth, gone, f, kids[0]);
      hide Walk, WalkAll, WalkKid, Fresh, Children, Preorder, NoDup, Under, OnlyBelow;
      KidIsPreorder(t, depth, gone, f, kids[0]);
      hide KidsReady;
      var first := WalkKid(t, f, kids[0]);
      OthersStayReady(t, depth, gone, f, first.flags, kids, p);
      KidBelow(t, depth, f, first.flags, kids[0], p);
      WalkAllIsPreorder(t, depth, gone, first.flags, kids[1..], p);
      OnlyBelowTwice(t, depth, f, first.flags, WalkAll(t, first.flags, kids[1..]).flags, p);
    }
  }

  // ---------- the preorder is the tree ----------

  lemma {:induction false} PreorderMembers(t: Table, depth: seq<nat>, gone: seq<bool>, p: nat, x: nat)
    requires Forest(t, depth) && |gone| == |t| && p < |t| && x < |t|
    ensures x in Preorder(t, depth, gone, p) <==> Reached(t, depth, gone, x, p)
    decreases |t| - depth[p], 1, 0
  {
    var kids := Children(t, gone, t[p].pid, 0);
    ChildrenAreAll(t, gone, t[p].pid, 0);
    PreorderAllMembers(t, depth, gone, kids, depth[p], x);
    if x != p && Reached(t, depth, gone, x, p) {
      var kid := ReachedChild(t, depth, gone, x, p);
      assert kid in kids;
    }
    forall i | 0 <= i < |kids| && Reached(t, depth, gone, x, kids[i]) ensures Reached(t, depth, gone, x, p) {
      ReachedParent(t, depth, gone, x, kids[i], p);
    }
    hide Children, PreorderAll;
  }

  lemma {:induction false} PreorderAllMembers(t: Table, depth: seq<nat>, gone: seq<bool>, kids: seq<nat>, above: nat,
                                              x: nat)
    requires Forest(t, depth) && |gone| == |t| && x < |t|
    requires forall i :: 0 <= i < |kids| ==> kids[i] < |t| && depth[kids[i]] > above
    ensures x in PreorderAll(t, depth, gone, kids, above) <==>
            exists i :: 0 <= i < |kids| && Reached(t, depth, gone, x, kids[i])
    decreases |t| - above, 0, |kids|
  {
    if kids != [] {
      PreorderMembers(t, depth, gone, kids[0], x);
      PreorderAllMembers(t, depth, gone, kids[1..], above, x);
      hide Preorder;
      assert forall i :: 0 < i < |kids| ==> kids[i] == kids[1..][i - 1];
      assert forall i :: 0 <= i < |kids| - 1 ==> kids[1..][i] == kids[i + 1];
    }
  }

  // ---------- the results on a forest ----------

  /** Whatever the flags hold at the start, what is printed below p is the preorder of the tree
      without the entries whose `taken` is set and all below them, each process once. */
  lemma PrintsWhatIsReached(t: Table, depth: seq<nat>, f: Flags, p: nat)
    requires Forest(t, depth) && Fit(t, f) && p < |t|
    ensures var order := Walk(t, f, p).order;
            && order == Preorder(t, depth, f.taken, p) && NoDup(order)
            && forall x: nat :: x < |t| ==> (x in order <==> Reached(t, depth, f.taken, x, p))
  {
    hide Walk, Preorder, Reached;
    assert Fresh(t, depth, f.taken, f, p);
    WalkIsPreorder(t, depth, f.taken, f, p);
    NothingTwice(t, f, p);
    var w := Walk(t, f, p);
    forall x: nat | x < |t| ensures x in w.order <==> Reached(t, depth, f.taken, x, p) {
      PreorderMembers(t, depth, f.taken, p, x);
    }
    forall i | 0 < i < |w.order| ensures w.order[i] != p {
      assert NewlyTaken(f, w.flags, w.order[i]);
      assert w.flags.taken[p] == f.taken[p];
    }
    assert forall i :: 0 < i < |w.order| ==> w.order[i] == w.order[1..][i - 1];
  }

  /** All of p's descendants are printed, in preorder, exactly when no `taken` below p is set at
      the start; the `parent` flags do not matter. */
  lemma PrintsAllExactly(t: Table, depth: seq<nat>, f: Flags, p: nat)
    requires Forest(t, depth) && Fit(t, f) && p < |t|
    ensures Walk(t, f, p).order == Preorder(t, depth, Whole(t), p) <==>
            forall x: nat :: x < |t| && x != p && Under(t, depth, x, p) ==> !f.taken[x]
    ensures forall x: nat :: x < |t| ==> (x in Preorder(t, depth, Whole(t), p) <==> Under(t, depth, x, p))
  {
    hide Walk, Preorder, Reached;
    forall x: nat | x < |t| ensures x in Preorder(t, depth, Whole(t), p) <==> Under(t, depth, x, p) {
      PreorderMembers(t, depth, Whole(t), p, x);
      ReachedWhole(t, depth, Whole(t), x, p);
    }
    if Fresh(t, depth, Whole(t), f, p) {
      WalkIsPreorder(t, depth, Whole(t), f, p);
    } else {
      var x: nat :| x < |t| && x != p && Under(t, depth, x, p) && f.taken[x];
      NothingTwice(t, f, p);
      var w := Walk(t, f, p);
      assert forall i :: 0 < i < |w.order| ==> NewlyTaken(f, w.flags, w.order[i]);
      assert x !in w.order;
    }
  }

  // ---------- where each process stands ----------

  /** Below p the flags are as they were at the start. */
  ghost predicate AsStarted(t: Table, depth: seq<nat>, start: Flags, f: Flags, p: nat)
    requires Forest(t, depth) && Fit(t, start) && Fit(t, f) && p < |t|
  {
    forall x: nat :: x < |t| && x != p && Under(t, depth, x, p) ==>
      f.taken[x] == start.taken[x] && f.parent[x] == start.parent[x]
  }

  /** The processes displayed just below p. */
  ghost function Kids(t: Table, start: Flags, p: nat): (kids: seq<nat>)
    requires Fit(t, start) && p < |t|
    ensures forall i :: 0 <= i < |kids| ==> IsParent(t, p, kids[i]) && !start.taken[kids[i]]
  {
    Children(t, start.taken, t[p].pid, 0)
  }

  /** The place of x, from that of its parent: the column is behind the parent's pid and its header;
      the level of the parent is open if the parent is one of several children. */
  ghost function PlaceOf(t: Table, depth: seq<nat>, start: Flags, p: nat, x: nat): Place
    requires Forest(t, depth) && Fit(t, start) && p < |t| && x < |t| && Reached(t, depth, start.taken, x, p)
    decreases depth[x]
  {
    if x == p then TOP
    else
      var y: nat :| IsParent(t, y, x) && Reached(t, depth, start.taken, y, p);
      var above, kids := PlaceOf(t, depth, start, p, y), Kids(t, start, y);
      Place(above.column + 3 + |t[y].pid|, if above.multi then above.levels + [above.column] else above.levels,
            kids != [] && x == kids[0], kids != [] && x == kids[|kids| - 1], |kids| > 1)
  }

  /** A process that is shown is reached, stands in its place, and is descended into if it has
      children, or if its `parent` flag was set at the start. */
  ghost predicate Right(t: Table, depth: seq<nat>, start: Flags, p: nat, s: Shown)
    requires Forest(t, depth) && Fit(t, start) && p < |t|
  {
    && s.proc < |t| && Reached(t, depth, start.taken, s.proc, p)
    && s.place == PlaceOf(t, depth, start, p, s.proc) && s.kids == |Kids(t, start, s.proc)|
    && (s.descended <==> s.proc == p || start.parent[s.proc] || s.kids > 0)
  }

  ghost predicate AllRight(t: Table, depth: seq<nat>, start: Flags, p: nat, shown: seq<Shown>)
    requires Forest(t, depth) && Fit(t, start) && p < |t|
  {
    forall i :: 0 <= i < |shown| ==> Right(t, depth, start, p, shown[i])
  }

  lemma AllRightAppend(t: Table, depth: seq<nat>, start: Flags, p: nat, a: seq<Shown>, b: seq<Shown>)
    requires Forest(t, depth) && Fit(t, start) && p < |t|
    requires AllRight(t, depth, start, p, a) && AllRight(t, depth, start, p, b)
    ensures AllRight(t, depth, start, p, a + b)
  {
    hide Right;
  }

  lemma KidIsReached(t: Table, depth: seq<nat>, start: Flags, p: nat, q: nat, x: nat)
    requires Forest(t, depth) && Fit(t, start) && p < |t| && q < |t| && Reached(t, depth, start.taken, q, p)
    requires IsParent(t, q, x) && !start.taken[x]
    ensures Reached(t, depth, start.taken, x, p) && x != p && forall y: nat :: IsParent(t, y, x) ==> y == q
  {
    ReachedWhole(t, depth, start.taken, q, p);
    UnderIsDeeper(t, depth, q, p);
  }

  lemma PlacesAgree(t: Table, q: nat, above: Place, kids: seq<nat>, i: nat)
    requires NoDup(kids) && i < |kids| && q < |t|
    ensures ChildPlace(t, q, above, i, |kids|)
            == Place(above.column + 3 + |t[q].pid|, InnerLevels(above), kids != [] && kids[i] == kids[0],
                     kids != [] && kids[i] == kids[|kids| - 1], |kids| > 1)
  {
  }

  lemma KidsDiffer(t: Table, start: Flags, q: nat)
    requires Fit(t, start) && q < |t|
    ensures NoDup(Kids(t, start, q))
  {
    ChildrenAreAll(t, start.taken, t[q].pid, 0);
  }

  /** A child of q is reached through q. */
  lemma KidPlace(t: Table, depth: seq<nat>, start: Flags, p: nat, q: nat, i: nat)
    requires Forest(t, depth) && Fit(t, start) && p < |t| && q < |t| && Reached(t, depth, start.taken, q, p)
    requires i < |Kids(t, start, q)|
    ensures var kids := Kids(t, start, q);
            && Reached(t, depth, start.taken, kids[i], p) && kids[i] != p
            && PlaceOf(t, depth, start, p, kids[i])
               == ChildPlace(t, q, PlaceOf(t, depth, start, p, q), i, |kids|)
  {
    var kids := Kids(t, start, q);
    KidsDiffer(t, start, q);
    hide Kids, NoDup, Reached, PlaceOf, ChildPlace, InnerLevels, Forest;
    KidIsReached(t, depth, start, p, q, kids[i]);
    PlacesAgree(t, q, PlaceOf(t, depth, start, p, q), kids, i);
    PlaceBelow(t, depth, start, p, q, kids[i]);
  }

  lemma PlaceBelow(t: Table, depth: seq<nat>, start: Flags, p: nat, q: nat, x: nat)
    requires Forest(t, depth) && Fit(t, start) && p < |t| && q < |t| && Reached(t, depth, start.taken, q, p)
    requires IsParent(t, q, x) && Reached(t, depth, start.taken, x, p) && x != p
    ensures var above, kids := PlaceOf(t, depth, start, p, q), Kids(t, start, q);
            PlaceOf(t, depth, start, p, x)
            == Place(above.column + 3 + |t[q].pid|, InnerLevels(above), kids != [] && x == kids[0],
                     kids != [] && x == kids[|kids| - 1], |kids| > 1)
  {
    assert forall y: nat :: IsParent(t, y, x) ==> y == q;
    hide Reached, Kids;
  }

  ghost predicate KidsAsStarted(t: Table, depth: seq<nat>, start: Flags, f: Flags, q: nat, i: nat)
    requires Forest(t, depth) && Fit(t, start) && Fit(t, f) && q < |t|
  {
    var kids := Kids(t, start, q);
    forall j :: i <= j < |kids| ==>
      && AsStarted(t, depth, start, f, kids[j])
      && (f.parent[kids[j]] <==> start.parent[kids[j]] || Kids(t, start, kids[j]) != [])
  }

  lemma CollectedAsStarted(t: Table, depth: seq<nat>, start: Flags, f: Flags, q: nat)
    requires Forest(t, depth) && Fit(t, start) && Fit(t, f) && q < |t| && AsStarted(t, depth, start, f, q)
    ensures var c := Collect(t, f, t[q].pid);
            c.kids == Kids(t, start, q) && KidsAsStarted(t, depth, start, c.flags, q, 0)
  {
    hide Collect;
    var c, kids := Collect(t, f, t[q].pid), Kids(t, start, q);
    FreshIsReady(t, depth, start.taken, f, q);
    CollectIsChildren(t, start.taken, f, t[q].pid, 0);
    hide Ready, Children;
    forall j | 0 <= j < |kids|
      ensures AsStarted(t, depth, start, c.flags, kids[j])
      ensures c.flags.parent[kids[j]] <==> start.parent[kids[j]] || Kids(t, start, kids[j]) != []
    {
      assert Under(t, depth, q, q) && Under(t, depth, kids[j], q);
      UnderIsDeeper(t, depth, kids[j], q);
      KidStaysAsStarted(t, depth, start, f, c.flags, q, kids[j]);
    }
  }

  lemma KidStaysAsStarted(t: Table, depth: seq<nat>, start: Flags, f: Flags, f1: Flags, q: nat, kid: nat)
    requires Forest(t, depth) && Fit(t, start) && Fit(t, f) && Fit(t, f1) && IsParent(t, q, kid)
    requires AsStarted(t, depth, start, f, q)
    requires forall x :: 0 <= x < |t| && t[x].ppid != t[q].pid ==>
               f1.taken[x] == f.taken[x] && f1.parent[x] == f.parent[x]
    ensures AsStarted(t, depth, start, f1, kid)
  {
    forall x: nat | x < |t| && x != kid && Under(t, depth, x, kid)
      ensures f1.taken[x] == start.taken[x] && f1.parent[x] == start.parent[x]
    {
      UnderParent(t, depth, x, kid, q);
      UnderIsDeeper(t, depth, x, kid);
      if t[x].ppid == t[q].pid {
        var y: nat :| IsParent(t, y, x) && Under(t, depth, y, kid);
        UnderIsDeeper(t, depth, q, kid);
        assert false;
      }
    }
  }

  lemma OthersAsStarted(t: Table, depth: seq<nat>, start: Flags, f: Flags, r: Flags, q: nat, i: nat)
    requires Forest(t, depth) && Fit(t, start) && Fit(t, f) && Fit(t, r) && q < |t| && i < |Kids(t, start, q)|
    requires KidsAsStarted(t, depth, start, f, q, i) && OnlyBelow(t, depth, f, r, Kids(t, start, q)[i])
    ensures KidsAsStarted(t, depth, start, r, q, i + 1)
  {
    var kids := Kids(t, start, q);
    ChildrenAreAll(t, start.taken, t[q].pid, 0);
    assert NoDup(kids);
    hide Kids, Children;
    forall j | i < j < |kids|
      ensures AsStarted(t, depth, start, r, kids[j]) && r.parent[kids[j]] == f.parent[kids[j]]
    {
      forall x: nat | x < |t| && Under(t, depth, x, kids[j]) ensures !Under(t, depth, x, kids[i]) {
        SiblingsApart(t, depth, x, kids[j], kids[i], q);
      }
      assert Under(t, depth, kids[j], kids[j]);
    }
  }

  /** Below q every process that is shown stands in its place. */
  lemma {:induction false} DrawIsRight(t: Table, depth: seq<nat>, start: Flags, f: Flags, p: nat, q: nat)
    requires Forest(t, depth) && Fit(t, start) && Fit(t, f) && p < |t| && q < |t|
    requires Reached(t, depth, start.taken, q, p) && AsStarted(t, depth, start, f, q)
    requires q == p || start.parent[q] || Kids(t, start, q) != []
    ensures AllRight(t, depth, start, p, Draw(t, f, q, PlaceOf(t, depth, start, p, q)))
    decreases |t| - depth[q], 1, 0
  {
    var at, c := PlaceOf(t, depth, start, p, q), Collect(t, f, t[q].pid);
    CollectedAsStarted(t, depth, start, f, q);
    DrawIsAll(t, f, q, at);
    hide Draw, DrawAll, Collect, AsStarted, KidsAsStarted, PlaceOf, Kids, Reached;
    DrawAllIsRight(t, depth, start, c.flags, p, q, 0);
    var me := Shown(q, at, |c.kids|, true);
    assert Right(t, depth, start, p, me);
    hide Right;
    assert AllRight(t, depth, start, p, [me]);
    AllRightAppend(t, depth, start, p, [me], DrawAll(t, c.flags, c.kids, 0, q, at));
  }

  lemma NextKid(t: Table, depth: seq<nat>, start: Flags, f: Flags, q: nat, i: nat)
    requires Forest(t, depth) && Fit(t, start) && Fit(t, f) && q < |t|
    requires KidsAsStarted(t, depth, start, f, q, i) && i < |Kids(t, start, q)|
    ensures var kid := Kids(t, start, q)[i];
            && depth[kid] > depth[q] && AsStarted(t, depth, start, f, kid)
            && (f.parent[kid] <==> start.parent[kid] || Kids(t, start, kid) != [])
            && KidsAsStarted(t, depth, start, WalkKid(t, f, kid).flags, q, i + 1)
  {
    var kid := Kids(t, start, q)[i];
    assert IsParent(t, q, kid) && AsStarted(t, depth, start, f, kid);
    KidIsPreorder(t, depth, start.taken, f, kid);
    hide WalkKid, Children, OnlyBelow;
    OthersAsStarted(t, depth, start, f, WalkKid(t, f, kid).flags, q, i);
  }

  lemma {:induction false} DrawAllIsRight(t: Table, depth: seq<nat>, start: Flags, f: Flags, p: nat, q: nat, i: nat)
    requires Forest(t, depth) && Fit(t, start) && Fit(t, f) && p < |t| && q < |t|
    requires Reached(t, depth, start.taken, q, p) && KidsAsStarted(t, depth, start, f, q, i)
    requires i <= |Kids(t, start, q)|
    ensures AllRight(t, depth, start, p,
                     DrawAll(t, f, Kids(t, start, q), i, q, PlaceOf(t, depth, start, p, q)))
    decreases |t| - depth[q], 0, |Kids(t, start, q)| - i
  {
    var kids, at := Kids(t, start, q), PlaceOf(t, depth, start, p, q);
    if i == |kids| {
      DrawAllOfNone(t, f, kids, q, at);
    } else {
      hide Draw, DrawAll, DrawKid, WalkKid, AsStarted, KidsAsStarted, PlaceOf, Kids, Reached, Right, AllRight;
      hide ChildPlace;
      var kid := kids[i];
      NextKid(t, depth, start, f, q, i);
      KidPlace(t, depth, start, p, q, i);
      DrawAllSplits(t, f, kids, i, q, at);
      DrawKidIsRight(t, depth, start, f, p, kid);
      DrawAllIsRight(t, depth, start, WalkKid(t, f, kid).flags, p, q, i + 1);
      AllRightAppend(t, depth, start, p, DrawKid(t, f, kid, PlaceOf(t, depth, start, p, kid)),
                     DrawAll(t, WalkKid(t, f, kid).flags, kids, i + 1, q, at));
    }
  }

  lemma {:induction false} DrawKidIsRight(t: Table, depth: seq<nat>, start: Flags, f: Flags, p: nat, kid: nat)
    requires Forest(t, depth) && Fit(t, start) && Fit(t, f) && p < |t| && kid < |t|
    requires Reached(t, depth, start.taken, kid, p) && AsStarted(t, depth, start, f, kid) && kid != p
    requires f.parent[kid] <==> start.parent[kid] || Kids(t, start, kid) != []
    ensures AllRight(t, depth, start, p, DrawKid(t, f, kid, PlaceOf(t, depth, start, p, kid)))
    decreases |t| - depth[kid], 2, 0
  {
    hide Draw, AsStarted, PlaceOf, Reached;
    if f.parent[kid] {
      DrawIsRight(t, depth, start, f, p, kid);
    }
  }

  /** Whatever the flags hold at the start: the processes displayed are those of the traversal, in
      its order, and each stands in its place in the tree. */
  lemma DisplaysInPlace(t: Table, depth: seq<nat>, f: Flags, p: nat)
    requires Forest(t, depth) && Fit(t, f) && p < |t|
    ensures var shown := Draw(t, f, p, TOP);
            Procs(shown) == Walk(t, f, p).order && AllRight(t, depth, f, p, shown)
  {
    assert AsStarted(t, depth, f, f, p);
    assert Reached(t, depth, f.taken, p, p) && PlaceOf(t, depth, f, p, p) == TOP;
    DrawIsWalk(t, f, p, TOP);
    hide Draw, Walk, AsStarted, Reached, PlaceOf, Kids, AllRight, Procs;
    DrawIsRight(t, depth, f, f, p, p);
  }

  /** q is above x, is init or one of several children, and stands in this column. */
  ghost predicate OpenAbove(t: Table, depth: seq<nat>, start: Flags, p: nat, x: nat, q: nat, column: nat)
    requires Forest(t, depth) && Fit(t, start) && p < |t| && x < |t|
  {
    && q < |t| && q != x && Under(t, depth, x, q) && Reached(t, depth, start.taken, q, p)
    && PlaceOf(t, depth, start, p, q).multi && PlaceOf(t, depth, start, p, q).column == column
  }

  lemma NoneAboveTop(t: Table, depth: seq<nat>, start: Flags, p: nat, q: nat, column: nat)
    requires Forest(t, depth) && Fit(t, start) && p < |t|
    ensures !OpenAbove(t, depth, start, p, p, q, column)
  {
    if OpenAbove(t, depth, start, p, p, q, column) {
      ReachedWhole(t, depth, start.taken, q, p);
      UnderIsDeeper(t, depth, q, p);
      UnderIsDeeper(t, depth, p, q);
      assert false;
    }
  }

  /** Above x are its parent and those above that. */
  lemma AboveKid(t: Table, depth: seq<nat>, start: Flags, p: nat, y: nat, x: nat, q: nat, column: nat)
    requires Forest(t, depth) && Fit(t, start) && p < |t| && IsParent(t, y, x) && Reached(t, depth, start.taken, y, p)
    ensures var at := PlaceOf(t, depth, start, p, y);
            OpenAbove(t, depth, start, p, x, q, column) <==>
            OpenAbove(t, depth, start, p, y, q, column) || (q == y && at.multi && at.column == column)
  {
    hide Reached, PlaceOf;
    assert forall z: nat :: IsParent(t, z, x) ==> z == y;
    assert Under(t, depth, y, y);
    if q < |t| && Under(t, depth, y, q) {
      UnderIsDeeper(t, depth, y, q);
      assert Under(t, depth, x, q) && q != x;
    }
  }

  /** The open levels are the columns of the processes above that are init or one of several. */
  lemma {:induction false} LevelsAreAncestors(t: Table, depth: seq<nat>, start: Flags, p: nat, x: nat, column: nat)
    requires Forest(t, depth) && Fit(t, start) && p < |t| && x < |t| && Reached(t, depth, start.taken, x, p)
    ensures column in PlaceOf(t, depth, start, p, x).levels <==>
            exists q: nat :: OpenAbove(t, depth, start, p, x, q, column)
    decreases depth[x]
  {
    if x == p {
      forall q: nat ensures !OpenAbove(t, depth, start, p, p, q, column) {
        NoneAboveTop(t, depth, start, p, q, column);
      }
    } else {
      var y: nat :| IsParent(t, y, x) && Reached(t, depth, start.taken, y, p);
      PlaceBelow(t, depth, start, p, y, x);
      LevelsAreAncestors(t, depth, start, p, y, column);
      var at := PlaceOf(t, depth, start, p, y);
      hide OpenAbove, PlaceOf, Reached, Kids;
      AboveKid(t, depth, start, p, y, x, y, column);
      if q: nat :| OpenAbove(t, depth, start, p, y, q, column) {
        AboveKid(t, depth, start, p, y, x, q, column);
      }
      if q: nat :| OpenAbove(t, depth, start, p, x, q, column) {
        AboveKid(t, depth, start, p, y, x, q, column);
      }
    }
  }

  /** In the gap before a process, a marker stands just where a header of one above it stands that is
      one of several. */
  lemma MarkersAreAncestors(t: Table, depth: seq<nat>, f: Flags, p: nat, i: nat, k: nat)
    requires Forest(t, depth) && Fit(t, f) && p < |t|
    requires var shown := Draw(t, f, p, TOP); i < |shown| && k < |Gap(shown[i].place)|
    ensures var s, column := Draw(t, f, p, TOP)[i], k + 2;
            && s.proc < |t| && |Gap(s.place)| == s.place.column - 3
            && Gap(s.place)[k]
               == if k > 0 && exists q: nat :: OpenAbove(t, depth, f, p, s.proc, q, column) then '|' else ' '
  {
    hide Draw, Reached, PlaceOf, Kids, Walk, OpenAbove;
    DisplaysInPlace(t, depth, f, p);
    var s := Draw(t, f, p, TOP)[i];
    assert Right(t, depth, f, p, s);
    LevelsAreAncestors(t, depth, f, p, s.proc, k + 2);
  }

  // ---------- the lines of the display ----------

  /** How many characters the last line of a text has. */
  ghost function LastColumn(text: string): nat {
    if text == "" || text[|text| - 1] == '\n' then 0 else 1 + LastColumn(text[..|text| - 1])
  }

  lemma {:induction false} LastColumnAppend(a: string, b: string)
    requires '\n' !in b
    ensures LastColumn(a + b) == LastColumn(a) + |b|
  {
    if b == "" {
      assert a + b == a;
    } else {
      assert (a + b)[..|a + b| - 1] == a + b[..|b| - 1];
      LastColumnAppend(a, b[..|b| - 1]);
    }
  }

  /** Where in its line the pid of process number i stands. */
  ghost function PidColumn(t: Table, shown: seq<Shown>, i: nat): nat
    requires i < |shown|
  {
    LastColumn(TextOf(t, shown[..i]) + Gap(shown[i].place) + Header(shown[i].place))
  }

  /** A first child stands behind its parent in the same line, any other process in a line of its
      own, if the one before has ended its line. */
  ghost predicate Follows(t: Table, s: Shown, next: Shown) {
    && s.proc < |t|
    && if s.kids > 0 then s.descended && next.place.first && next.place.column == s.place.column + 3 + |t[s.proc].pid|
       else !next.place.first && next.place.column >= 3
  }

  ghost predicate FollowsAt(t: Table, shown: seq<Shown>, i: nat) {
    i + 1 < |shown| ==> Follows(t, shown[i], shown[i + 1])
  }

  ghost predicate Chain(t: Table, shown: seq<Shown>) {
    && (forall i :: 0 <= i < |shown| ==> shown[i].proc < |t|)
    && (forall i: nat :: FollowsAt(t, shown, i))
  }

  ghost predicate Ends(shown: seq<Shown>) { shown != [] ==> shown[|shown| - 1].kids == 0 }

  lemma ChainAppend(t: Table, a: seq<Shown>, b: seq<Shown>)
    requires Chain(t, a) && Chain(t, b) && a != [] && (b != [] ==> Follows(t, a[|a| - 1], b[0]))
    ensures Chain(t, a + b) && (Ends(b) && (b == [] ==> Ends(a)) ==> Ends(a + b))
  {
    forall i: nat ensures FollowsAt(t, a + b, i) {
      assert FollowsAt(t, a, i);
      if i >= |a| {
        assert FollowsAt(t, b, i - |a|);
      }
    }
    hide Follows;
  }

  lemma {:induction false} DrawChains(t: Table, f: Flags, p: nat, at: Place)
    requires Fit(t, f) && p < |t|
    ensures var shown := Draw(t, f, p, at); Chain(t, shown) && Ends(shown) && shown != [] && shown[0].place == at
    decreases Untaken(f), 0
  {
    var c := Collect(t, f, t[p].pid);
    DrawIsAll(t, f, p, at);
    hide Draw, DrawAll, Collect, Untaken;
    var me, rest := Shown(p, at, |c.kids|, true), DrawAll(t, c.flags, c.kids, 0, p, at);
    if c.kids == [] {
      DrawAllOfNone(t, c.flags, c.kids, p, at);
    } else {
      DrawAllChains(t, c.flags, c.kids, 0, p, at);
    }
    assert Chain(t, [me]);
    hide Chain, Ends;
    assert rest != [] ==> Follows(t, me, rest[0]);
    EndsAt(me);
    ChainAppend(t, [me], rest);
  }

  lemma EndsAt(me: Shown)
    ensures Ends([me]) <==> me.kids == 0
  {
  }

  lemma {:induction false} DrawAllChains(t: Table, f: Flags, kids: seq<nat>, i: nat, p: nat, at: Place)
    requires Fit(t, f) && i <= |kids| && p < |t| && forall i :: 0 <= i < |kids| ==> kids[i] < |t|
    ensures var shown := DrawAll(t, f, kids, i, p, at);
            && Chain(t, shown) && Ends(shown)
            && (i < |kids| ==> shown != [] && shown[0].place == ChildPlace(t, p, at, i, |kids|))
            && (i == |kids| ==> shown == [])
    decreases Untaken(f), |kids| - i + 1
  {
    if i == |kids| {
      DrawAllOfNone(t, f, kids, p, at);
    } else {
      DrawAllSplits(t, f, kids, i, p, at);
      DrawKidChains(t, f, kids[i], ChildPlace(t, p, at, i, |kids|));
      hide Draw, DrawAll, DrawKid, WalkKid, Untaken;
      DrawAllChains(t, WalkKid(t, f, kids[i]).flags, kids, i + 1, p, at);
      ChainAppend(t, DrawKid(t, f, kids[i], ChildPlace(t, p, at, i, |kids|)),
                  DrawAll(t, WalkKid(t, f, kids[i]).flags, kids, i + 1, p, at));
    }
  }

  lemma {:induction false} DrawKidChains(t: Table, f: Flags, kid: nat, at: Place)
    requires Fit(t, f) && kid < |t|
    ensures var shown := DrawKid(t, f, kid, at); Chain(t, shown) && Ends(shown) && shown != [] && shown[0].place == at
    decreases Untaken(f), 1
  {
    hide Draw;
    if f.parent[kid] {
      DrawChains(t, f, kid, at);
    }
  }

  ghost predicate NoNewlines(t: Table) {
    forall i :: 0 <= i < |t| ==> '\n' !in t[i].pid
  }

  /** A process with no children that is descended into does not end its line. */
  ghost predicate LeavesLineOpen(s: Shown) { s.descended && s.kids == 0 }

  lemma GapIsOneLine(at: Place)
    ensures '\n' !in Gap(at) + Header(at)
    ensures !at.first && at.column >= 3 ==> |Gap(at) + Header(at)| == at.column
    ensures at.first ==> Gap(at) + Header(at) == ""
  {
    hide Spacing;
    SpacingIsOneLine(if at.column < 3 then 0 else at.column - 3, at.levels);
  }

  lemma SpacingIsOneLine(size: nat, levels: seq<nat>)
    ensures |Spacing(size, levels)| == size && '\n' !in Spacing(size, levels)
  {
  }

  /** How far the line reaches behind a process whose pid stands in this column. */
  lemma PieceEnds(t: Table, text: string, s: Shown, column: nat)
    requires s.proc < |t| && '\n' !in t[s.proc].pid
    requires LastColumn(text + Gap(s.place) + Header(s.place)) == column
    ensures LastColumn(text + Piece(t, s)) == if s.descended then column + |t[s.proc].pid| + 3 else 0
  {
    var line := text + Gap(s.place) + Header(s.place);
    Glue(text, Gap(s.place), Header(s.place), t[s.proc].pid, Connector(s));
    assert text + Piece(t, s) == line + t[s.proc].pid + Connector(s);
    hide Gap, Header, Piece;
    if s.descended {
      hide LastColumn;
      LastColumnAppend(line, t[s.proc].pid);
      LastColumnAppend(line + t[s.proc].pid, Connector(s));
    } else {
      LineEnds(line + t[s.proc].pid);
    }
  }

  lemma LineEnds(line: string)
    ensures LastColumn(line + "\n") == 0
  {
  }

  lemma PidColumnIs(t: Table, shown: seq<Shown>, i: nat)
    requires i < |shown|
    ensures PidColumn(t, shown, i) == LastColumn(TextOf(t, shown[..i])) + |Gap(shown[i].place) + Header(shown[i].place)|
  {
    var at, text := shown[i].place, TextOf(t, shown[..i]);
    GapIsOneLine(at);
    LastColumnAppend(text, Gap(at) + Header(at));
    assert text + (Gap(at) + Header(at)) == text + Gap(at) + Header(at);
    hide Gap, Header, TextOf, LastColumn;
  }

  lemma NextColumn(t: Table, shown: seq<Shown>, i: nat)
    requires Chain(t, shown) && NoNewlines(t) && i + 1 < |shown|
    ensures var s, next := shown[i], shown[i + 1];
            && (next.place.first <==> s.kids > 0)
            && PidColumn(t, shown, i + 1) == (if s.descended then PidColumn(t, shown, i) + |t[s.proc].pid| + 3 else 0)
                                             + (if next.place.first then 0 else next.place.column)
            && (next.place.first ==> next.place.column == s.place.column + 3 + |t[s.proc].pid|)
  {
    assert FollowsAt(t, shown, i);
    var s, next := shown[i], shown[i + 1];
    PidColumnIs(t, shown, i + 1);
    GapIsOneLine(next.place);
    PieceEnds(t, TextOf(t, shown[..i]), s, PidColumn(t, shown, i));
    PrefixSplits(shown, i);
    TextOfMore(t, shown[..i], s);
    hide TextOf, Gap, Header, Piece, LastColumn;
  }

  lemma PrefixSplits<T>(s: seq<T>, i: nat)
    requires i < |s|
    ensures s[..i + 1] == s[..i] + [s[i]]
  {
  }

  /** Each pid stands in its column if no line has been left open before it. */
  lemma {:induction false} PidsStandInColumns(t: Table, shown: seq<Shown>, i: nat)
    requires Chain(t, shown) && NoNewlines(t) && i < |shown| && shown[0].place == TOP
    requires forall j :: 0 <= j < i ==> !LeavesLineOpen(shown[j])
    ensures PidColumn(t, shown, i) == shown[i].place.column
  {
    if i == 0 {
      PidColumnIs(t, shown, 0);
      GapIsOneLine(TOP);
      assert shown[..0] == [];
    } else {
      PidsStandInColumns(t, shown, i - 1);
      NextColumn(t, shown, i - 1);
      hide PidColumn;
      assert FollowsAt(t, shown, i - 1) && !LeavesLineOpen(shown[i - 1]);
    }
  }

  /** On any table: all pids of the display stand in their columns exactly when no process without
      children but the last has been descended into, which takes a stale `parent` flag. */
  lemma AlignedExactly(t: Table, f: Flags, p: nat)
    requires Fit(t, f) && p < |t| && NoNewlines(t)
    ensures var shown := Draw(t, f, p, TOP);
            (forall i :: 0 <= i < |shown| ==> PidColumn(t, shown, i) == shown[i].place.column) <==>
            (forall i :: 0 <= i < |shown| - 1 ==> !LeavesLineOpen(shown[i]))
  {
    var shown := Draw(t, f, p, TOP);
    DrawChains(t, f, p, TOP);
    hide Draw, PidColumn, Chain;
    if forall i :: 0 <= i < |shown| - 1 ==> !LeavesLineOpen(shown[i]) {
      forall i | 0 <= i < |shown| ensures PidColumn(t, shown, i) == shown[i].place.column {
        PidsStandInColumns(t, shown, i);
      }
    } else {
      var i :| 0 <= i < |shown| - 1 && LeavesLineOpen(shown[i]);
      NextColumn(t, shown, i);
      assert PidColumn(t, shown, i + 1) != shown[i + 1].place.column;
    }
  }

  /** A flag that realloc() left set drops a process: init is printed, its child is not. */
  lemma StaleFlagDropsAProcess()
    ensures var t := [Info("1", "0"), Info("2", "1")];
            Walk(t, Flags([false, true], [false, false]), 0).order == [0]
  {
    var t, f := [Info("1", "0"), Info("2", "1")], Flags([false, true], [false, false]);
    assert FirstChild(t, f.taken, "1", 0) == 2;
    assert Collect(t, f, "1") == Collected([], f);
  }

  // ---------- an example ----------

  /** init with the children 2 and 3, and 3 with the children 4 and 5. */
  const FIVE: Table := [Info("1", "0"), Info("2", "1"), Info("3", "1"), Info("4", "3"), Info("5", "3")]

  const CLEAR := [false, false, false, false, false]

  /** Two children are collected. */
  lemma TwoKids(t: Table, f: Flags, pid: string, i: nat, j: nat)
    requires Fit(t, f) && i < j < |t| && !f.taken[i] && !f.taken[j]
    requires forall x :: 0 <= x < |t| ==> (t[x].ppid == pid && !f.taken[x] <==> x == i || x == j)
    ensures Collect(t, f, pid) == Collected([i, j], Take(t, Take(t, f, i), j))
  {
    var f1 := Take(t, f, i);
    var f2 := Take(t, f1, j);
    CollectSplits(t, f, pid);
    CollectSplits(t, f1, pid);
    CollectSplits(t, f2, pid);
    assert FirstChild(t, f.taken, pid, 0) == i;
    assert FirstChild(t, f1.taken, pid, 0) == j;
    assert FirstChild(t, f2.taken, pid, 0) == |t|;
    hide Collect, FirstChild, Take;
  }

  lemma DrawTwo(t: Table, f: Flags, p: nat, at: Place, i: nat, j: nat)
    requires Fit(t, f) && p < |t| && i < |t| && j < |t|
    requires Collect(t, f, t[p].pid).kids == [i, j]
    ensures var f1 := Collect(t, f, t[p].pid).flags;
            Draw(t, f, p, at) == [Shown(p, at, 2, true)] + DrawKid(t, f1, i, ChildPlace(t, p, at, 0, 2))
                                 + DrawKid(t, WalkKid(t, f1, i).flags, j, ChildPlace(t, p, at, 1, 2))
  {
    var f1 := Collect(t, f, t[p].pid).flags;
    DrawIsAll(t, f, p, at);
    DrawAllSplits(t, f1, [i, j], 0, p, at);
    DrawAllSplits(t, WalkKid(t, f1, i).flags, [i, j], 1, p, at);
    DrawAllOfNone(t, WalkKid(t, WalkKid(t, f1, i).flags, j).flags, [i, j], p, at);
    hide Draw, DrawAll, DrawKid, WalkKid, Collect, ChildPlace;
    CatNone([Shown(p, at, 2, true)], DrawKid(t, f1, i, ChildPlace(t, p, at, 0, 2)),
            DrawKid(t, WalkKid(t, f1, i).flags, j, ChildPlace(t, p, at, 1, 2)));
  }

  lemma CatNone<T>(a: seq<T>, b: seq<T>, c: seq<T>)
    ensures a + (b + (c + [])) == a + b + c
  {
  }

  const TAKEN := Flags([false, true, true, false, false], [false, false, true, false, false])

  /** Taking entry i marks it as a parent exactly if some entry is left that has it for its parent. */
  lemma Takes(t: Table, f: Flags, i: nat, last: nat)
    requires Fit(t, f) && i < |t| && last <= |t|
    requires FirstChild(t, f.taken[i := true], t[i].pid, 0) == last
    ensures Take(t, f, i) == Flags(f.taken[i := true], if last < |t| then f.parent[i := true] else f.parent)
  {
    hide FirstChild;
  }

  lemma InitCollects()
    ensures Collect(FIVE, Flags(CLEAR, CLEAR), "1") == Collected([1, 2], TAKEN)
  {
    hide FirstChild, Collect, Take;
    var f, g := Flags(CLEAR, CLEAR), Flags([false, true, false, false, false], CLEAR);
    assert f.taken[1 := true] == g.taken && g.taken[2 := true] == TAKEN.taken && g.parent[2 := true] == TAKEN.parent;
    TwoKids(FIVE, f, "1", 1, 2);
    Takes(FIVE, f, 1, 5);
    Takes(FIVE, g, 2, 3);
  }

  lemma ThreeCollects()
    ensures Collect(FIVE, TAKEN, "3")
            == Collected([3, 4], Flags([false, true, true, true, true], [false, false, true, false, false]))
  {
    hide FirstChild, Collect, Take;
    var g := Flags([false, true, true, true, false], TAKEN.parent);
    assert TAKEN.taken[3 := true] == g.taken && g.taken[4 := true] == [false, true, true, true, true];
    TwoKids(FIVE, TAKEN, "3", 3, 4);
    Takes(FIVE, TAKEN, 3, 5);
    Takes(FIVE, g, 4, 5);
  }

  lemma LeafShown(t: Table, f: Flags, kid: nat, at: Place)
    requires Fit(t, f) && kid < |t| && !f.parent[kid]
    ensures DrawKid(t, f, kid, at) == [Shown(kid, at, 0, false)] && WalkKid(t, f, kid).flags == f
  {
  }

  lemma Cat3<T>(a: T, b: T, c: seq<T>)
    ensures [a] + [b] + c == [a, b] + c
    ensures |c| == 1 ==> [a, b] + c == [a, b, c[0]]
    ensures |c| == 3 ==> [a, b] + c == [a, b, c[0], c[1], c[2]]
  {
  }

  lemma ThreeShown(at: Place)
    requires at == Place(4, [0], false, true, true)
    ensures Draw(FIVE, TAKEN, 2, at) ==
            [Shown(2, at, 2, true), Shown(3, Place(8, [0, 4], true, false, true), 0, false),
             Shown(4, Place(8, [0, 4], false, true, true), 0, false)]
  {
    var g := Flags([false, true, true, true, true], [false, false, true, false, false]);
    var first, last := Place(8, [0, 4], true, false, true), Place(8, [0, 4], false, true, true);
    assert ChildPlace(FIVE, 2, at, 0, 2) == first && ChildPlace(FIVE, 2, at, 1, 2) == last;
    ThreeCollects();
    hide Draw, DrawKid, WalkKid, Collect, ChildPlace;
    DrawTwo(FIVE, TAKEN, 2, at, 3, 4);
    LeafShown(FIVE, g, 3, first);
    LeafShown(FIVE, g, 4, last);
    Cat3(Shown(2, at, 2, true), Shown(3, first, 0, false), [Shown(4, last, 0, false)]);
  }

  lemma FiveShown()
    ensures Draw(FIVE, Flags(CLEAR, CLEAR), 0, TOP) ==
            [Shown(0, TOP, 2, true), Shown(1, Place(4, [0], true, false, true), 0, false),
             Shown(2, Place(4, [0], false, true, true), 2, true),
             Shown(3, Place(8, [0, 4], true, false, true), 0, false),
             Shown(4, Place(8, [0, 4], false, true, true), 0, false)]
  {
    var first, last := Place(4, [0], true, false, true), Place(4, [0], false, true, true);
    assert ChildPlace(FIVE, 0, TOP, 0, 2) == first && ChildPlace(FIVE, 0, TOP, 1, 2) == last;
    InitCollects();
    assert DrawKid(FIVE, TAKEN, 2, last) == Draw(FIVE, TAKEN, 2, last) by { hide Draw; }
    hide Draw, DrawKid, WalkKid, Collect, ChildPlace;
    DrawTwo(FIVE, Flags(CLEAR, CLEAR), 0, TOP, 1, 2);
    LeafShown(FIVE, TAKEN, 1, first);
    ThreeShown(last);
    Cat3(Shown(0, TOP, 2, true), Shown(1, first, 0, false), Draw(FIVE, TAKEN, 2, last));
  }

  lemma Pieces()
    ensures Piece(FIVE, Shown(0, TOP, 2, true)) == "1-+-"
    ensures Piece(FIVE, Shown(1, Place(4, [0], true, false, true), 0, false)) == "2\n"
    ensures Piece(FIVE, Shown(2, Place(4, [0], false, true, true), 2, true)) == "  `-3-+-"
    ensures Piece(FIVE, Shown(3, Place(8, [0, 4], true, false, true), 0, false)) == "4\n"
    ensures Piece(FIVE, Shown(4, Place(8, [0, 4], false, true, true), 0, false)) == "  |   `-5\n"
  {
    assert Spacing(1, [0]) == " " && Spacing(5, [0, 4]) == "  |  ";
    hide Spacing;
  }

  /** The text of the display.  In the last line the marker of level 4 stands below the header of
      process 3, which is the last child of init. */
  lemma MarkerBelowLastChild()
    ensures TextOf(FIVE, Draw(FIVE, Flags(CLEAR, CLEAR), 0, TOP)) == "1-+-2\n  `-3-+-4\n  |   `-5\n"
  {
    hide Draw, Piece, TextOf;
    FiveShown();
    Pieces();
    FiveTexts(Draw(FIVE, Flags(CLEAR, CLEAR), 0, TOP));
  }

  lemma FiveTexts(shown: seq<Shown>)
    requires |shown| == 5
    ensures TextOf(FIVE, shown) == Piece(FIVE, shown[0]) + Piece(FIVE, shown[1]) + Piece(FIVE, shown[2])
                                   + Piece(FIVE, shown[3]) + Piece(FIVE, shown[4])
  {
    hide Piece;
    assert shown[..5] == shown && TextOf(FIVE, shown[..0]) == "";
    forall i: nat | i < 5 ensures TextOf(FIVE, shown[..i + 1]) == TextOf(FIVE, shown[..i]) + Piece(FIVE, shown[i]) {
      PrefixSplits(shown, i);
      TextOfMore(FIVE, shown[..i], shown[i]);
    }
    hide TextOf;
    assert TextOf(FIVE, shown[..1]) == "" + Piece(FIVE, shown[0]) == Piece(FIVE, shown[0]);
    assert TextOf(FIVE, shown[..2]) == TextOf(FIVE, shown[..1]) + Piece(FIVE, shown[1]);
    assert TextOf(FIVE, shown[..3]) == TextOf(FIVE, shown[..2]) + Piece(FIVE, shown[2]);
    assert TextOf(FIVE, shown[..4]) == TextOf(FIVE, shown[..3]) + Piece(FIVE, shown[3]);
  }

  /** A `parent` flag that realloc() left set on a process without children: it is descended into,
      its line is not ended, and the next process is out of its column. */
  lemma StaleParentBreaksALine()
    ensures var t := [Info("1", "0"), Info("2", "1"), Info("3", "1")];
            var shown := Draw(t, Flags([false, false, false], [false, true, false]), 0, TOP);
            && |shown| == 3 && LeavesLineOpen(shown[1])
            && exists i :: 0 <= i < |shown| && PidColumn(t, shown, i) != shown[i].place.column
  {
    var t := [Info("1", "0"), Info("2", "1"), Info("3", "1")];
    var f, g := Flags([false, false, false], [false, true, false]), Flags([false, true, false], [false, true, false]);
    var h := Flags([false, true, true], [false, true, false]);
    assert f.taken[1 := true] == g.taken && g.taken[2 := true] == h.taken;
    TwoKids(t, f, "1", 1, 2);
    Takes(t, f, 1, 3);
    Takes(t, g, 2, 3);
    assert FirstChild(t, h.taken, "2", 0) == 3;
    CollectSplits(t, h, "2");
    hide FirstChild, Take, Collect;
    DrawTwo(t, f, 0, TOP, 1, 2);
    var first, last := ChildPlace(t, 0, TOP, 0, 2), ChildPlace(t, 0, TOP, 1, 2);
    StaleShown(t, h, 1, first);
    LeafShown(t, h, 2, last);
    hide Draw, DrawKid, WalkKid, ChildPlace, PidColumn;
    Cat3(Shown(0, TOP, 2, true), Shown(1, first, 0, true), [Shown(2, last, 0, false)]);
    AlignedExactly(t, f, 0);
  }

  lemma StaleShown(t: Table, f: Flags, kid: nat, at: Place)
    requires Fit(t, f) && kid < |t| && f.parent[kid] && Collect(t, f, t[kid].pid) == Collected([], f)
    ensures DrawKid(t, f, kid, at) == [Shown(kid, at, 0, true)] && WalkKid(t, f, kid).flags == f
  {
    hide Collect;
  }
}
