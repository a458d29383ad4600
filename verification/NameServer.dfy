/** 59_Sockets_Internet_Domain/nv_sv.c: a value tree and a password tree behind one
    request loop.  `Serve` says what a request does to two finite maps; the class does it
    on two trees of module BinaryTree and on text buffers that are overwritten in place. */
module NameServer {
  import opened Collections
  import opened Keys
  import opened SearchTree
  import opened BinaryTree

  const CMD_DEL := 0
  const CMD_ADD := 1
  const CMD_MOD := 2
  const CMD_GET := 3

  type Text = seq<Byte>

  datatype Request = Request(command: int, password: Text, key: Key, value: Text)

  datatype Store = Store(values: map<Key, Text>, passwords: map<Key, Text>)

  const EMPTY := Store(map[], map[])

  function AddIfAbsent(m: map<Key, Text>, k: Key, v: Text): map<Key, Text> {
    if k in m then m else m[k := v]
  }

  datatype Variant =
    | AsWritten  // bt_lookup reads through NULL when it misses in a tree that is not empty
    | Repaired   // bt_lookup returns -1 on every miss

  predicate LookupCrashes(v: Variant, m: map<Key, Text>, k: Key) {
    v.AsWritten? && m != map[] && k !in m
  }

  predicate Authenticates(s: Store, r: Request) {
    r.key in s.passwords && Strcmp(s.passwords[r.key], r.password) == 0
  }

  /** The switch on req.command; None when the server dies. */
  function Serve(v: Variant, s: Store, r: Request): (s': Option<Store>) {
    if r.command == CMD_ADD then
      Some(Store(AddIfAbsent(s.values, r.key, r.value), AddIfAbsent(s.passwords, r.key, r.password)))
    else if r.command == CMD_DEL then
      if LookupCrashes(v, s.passwords, r.key) then None
      else if !Authenticates(s, r) then Some(s)
      else Some(s.(values := s.values - {r.key}))
    else if r.command == CMD_MOD then
      if LookupCrashes(v, s.passwords, r.key) then None
      else if !Authenticates(s, r) then Some(s)
      else if LookupCrashes(v, s.values, r.key) then None
      else if r.key !in s.values then Some(s)
      else Some(s.(values := s.values[r.key := r.value]))
    else if r.command == CMD_GET then
      if LookupCrashes(v, s.values, r.key) then None else Some(s)
    else Some(s)
  }

  /** What the server prints about a request. */
  datatype Answer =
    | Value(text: Text)
    | Changed(from: Text, to: Text)
    | Duplicate        // the key has a value already
    | PasswordKept     // the key has a password already
    | NoKey            // no password under the key
    | NotAuthenticated
    | NoPair           // no value under the key

  function Answers(s: Store, r: Request): seq<Answer> {
    if r.command == CMD_ADD then
      (if r.key in s.values then [Duplicate] else []) + (if r.key in s.passwords then [PasswordKept] else [])
    else if r.command == CMD_DEL || r.command == CMD_MOD then
      if r.key !in s.passwords then [NoKey]
      else if !Authenticates(s, r) then [NotAuthenticated]
      else if r.key !in s.values then [NoPair]
      else if r.command == CMD_DEL then []
      else [Changed(s.values[r.key], r.value)]
    else if r.command == CMD_GET then
      if r.key in s.values then [Value(s.values[r.key])] else [NoPair]
    else []
  }

  function Run(v: Variant, s: Store, rs: seq<Request>): (s': Option<Store>)
    decreases |rs|
  {
    if rs == [] then Some(s)
    else match Serve(v, s, rs[0])
      case None => None
      case Some(s1) => Run(v, s1, rs[1..])
  }

  /** Every key with a value has a password. */
  predicate Governed(s: Store) {
    s.values.Keys <= s.passwords.Keys
  }

  lemma {:induction false} ValuesStayGoverned(v: Variant, s: Store, rs: seq<Request>)
    requires Governed(s) && Run(v, s, rs).Some?
    ensures Governed(Run(v, s, rs).value)
    decreases |rs|
  {
    if rs != [] {
      ValuesStayGoverned(v, Serve(v, s, rs[0]).value, rs[1..]);
    }
  }

  /** A recorded password outlives every request, even the removal of the value. */
  lemma {:induction false} PasswordsNeverChange(v: Variant, s: Store, rs: seq<Request>, k: Key)
    requires Run(v, s, rs).Some? && k in s.passwords
    ensures k in Run(v, s, rs).value.passwords && Run(v, s, rs).value.passwords[k] == s.passwords[k]
    decreases |rs|
  {
    if rs != [] {
      PasswordsNeverChange(v, Serve(v, s, rs[0]).value, rs[1..], k);
    }
  }

  function FirstAdd(rs: seq<Request>, k: Key): (p: Option<Text>) {
    if rs == [] then None
    else if rs[0].command == CMD_ADD && rs[0].key == k then Some(rs[0].password)
    else FirstAdd(rs[1..], k)
  }

  /** A key's password is the one of the first ADD of the key, and no other. */
  lemma {:induction false} PasswordIsFirstAdd(v: Variant, s: Store, rs: seq<Request>, k: Key)
    requires Run(v, s, rs).Some? && k !in s.passwords
    ensures k in Run(v, s, rs).value.passwords <==> FirstAdd(rs, k).Some?
    ensures FirstAdd(rs, k).Some? ==> Run(v, s, rs).value.passwords[k] == FirstAdd(rs, k).value
    decreases |rs|
  {
    if rs != [] {
      var s1 := Serve(v, s, rs[0]).value;
      if k in s1.passwords {
        PasswordsNeverChange(v, s1, rs[1..], k);
      } else {
        PasswordIsFirstAdd(v, s1, rs[1..], k);
      }
    }
  }

  predicate MayTouch(r: Request, k: Key, password: Text) {
    r.key == k && r.password == password && (r.command == CMD_DEL || r.command == CMD_MOD)
  }

  /** A value changes or disappears only by a DEL or MOD that carries the key's password. */
  lemma {:induction false} ValueIsProtected(v: Variant, s: Store, rs: seq<Request>, k: Key)
    requires Governed(s) && Run(v, s, rs).Some? && k in s.values
    requires forall i :: 0 <= i < |rs| ==> !MayTouch(rs[i], k, s.passwords[k])
    ensures k in Run(v, s, rs).value.values && Run(v, s, rs).value.values[k] == s.values[k]
    decreases |rs|
  {
    if rs != [] {
      if rs[0].key == k {
        StrcmpIsRankOrder(s.passwords[k], rs[0].password);
      }
      ValueIsProtected(v, Serve(v, s, rs[0]).value, rs[1..], k);
    }
  }

  /** Whoever carries the password of the key's first ADD passes, and nobody else. */
  lemma AuthenticatesExactly(v: Variant, s: Store, rs: seq<Request>, r: Request)
    requires Run(v, s, rs).Some? && r.key !in s.passwords
    ensures Authenticates(Run(v, s, rs).value, r) <==> FirstAdd(rs, r.key) == Some(r.password)
  {
    PasswordIsFirstAdd(v, s, rs, r.key);
    if r.key in Run(v, s, rs).value.passwords {
      StrcmpIsRankOrder(Run(v, s, rs).value.passwords[r.key], r.password);
    }
  }

  // ---------- which request sequences the server survives ----------

  /** The key was added, and not deleted since with the password of its first ADD. */
  ghost predicate Present(rs: seq<Request>, k: Key) {
    if rs == [] then false
    else
      var r, before := rs[|rs| - 1], rs[..|rs| - 1];
      if r.key == k && r.command == CMD_ADD then true
      else if r.key == k && r.command == CMD_DEL && FirstAdd(before, k) == Some(r.password) then false
      else Present(before, k)
  }

  ghost predicate SomeAdd(rs: seq<Request>) {
    exists k :: FirstAdd(rs, k).Some?
  }

  ghost predicate SomePresent(rs: seq<Request>) {
    exists k :: Present(rs, k)
  }

  /** After the requests rs, r looks up only what is there, or looks in an empty tree. */
  ghost predicate Harmless(rs: seq<Request>, r: Request) {
    && (r.command == CMD_DEL || r.command == CMD_MOD ==> FirstAdd(rs, r.key).Some? || !SomeAdd(rs))
    && (r.command == CMD_GET || (r.command == CMD_MOD && FirstAdd(rs, r.key) == Some(r.password)) ==>
          Present(rs, r.key) || !SomePresent(rs))
  }

  lemma {:induction false} RunAppend(v: Variant, s: Store, rs: seq<Request>, r: Request)
    ensures Run(v, s, rs + [r]) == if Run(v, s, rs).None? then None else Serve(v, Run(v, s, rs).value, r)
    decreases |rs|
  {
    if rs == [] {
      assert [] + [r] == [r] && [r][1..] == [];
    } else {
      assert (rs + [r])[1..] == rs[1..] + [r];
      if Serve(v, s, rs[0]).Some? {
        RunAppend(v, Serve(v, s, rs[0]).value, rs[1..], r);
      }
    }
  }

  lemma RunSplits(v: Variant, s: Store, rs: seq<Request>)
    requires rs != []
    ensures var before := Run(v, s, rs[..|rs| - 1]);
            Run(v, s, rs) == if before.None? then None else Serve(v, before.value, rs[|rs| - 1])
  {
    RunAppend(v, s, rs[..|rs| - 1], rs[|rs| - 1]);
    assert rs[..|rs| - 1] + [rs[|rs| - 1]] == rs;
  }

  /** What is in the value tree follows from the requests alone. */
  lemma {:induction false} ValuesArePresent(v: Variant, rs: seq<Request>, k: Key)
    requires Run(v, EMPTY, rs).Some?
    ensures k in Run(v, EMPTY, rs).value.values <==> Present(rs, k)
    decreases |rs|
  {
    if rs != [] {
      var before, r := rs[..|rs| - 1], rs[|rs| - 1];
      RunSplits(v, EMPTY, rs);
      ValuesArePresent(v, before, k);
      AuthenticatesExactly(v, EMPTY, before, r);
    }
  }

  /** The value of the ADD that made the key present, or of the last MOD since with the password of
      the key's first ADD. */
  ghost function LastValue(rs: seq<Request>, k: Key): Option<Text> {
    if rs == [] then None
    else
      var r, before := rs[|rs| - 1], rs[..|rs| - 1];
      var owns := FirstAdd(before, k) == Some(r.password);
      if r.key != k then LastValue(before, k)
      else if r.command == CMD_ADD && !Present(before, k) then Some(r.value)
      else if r.command == CMD_MOD && Present(before, k) && owns then Some(r.value)
      else if r.command == CMD_DEL && owns then None
      else LastValue(before, k)
  }

  /** The value under a key is the one that was written last. */
  lemma {:induction false} ValuesAreLastWritten(v: Variant, rs: seq<Request>, k: Key)
    requires Run(v, EMPTY, rs).Some?
    ensures var m := Run(v, EMPTY, rs).value.values; LastValue(rs, k) == if k in m then Some(m[k]) else None
    decreases |rs|
  {
    if rs != [] {
      var before, r := rs[..|rs| - 1], rs[|rs| - 1];
      RunSplits(v, EMPTY, rs);
      ValuesAreLastWritten(v, before, k);
      ValuesArePresent(v, before, k);
      AuthenticatesExactly(v, EMPTY, before, r);
      hide Run, Present, FirstAdd, Authenticates;
    }
  }

  /** What a request is answered follows from the requests before it: a GET shows the value that
      was written last, a MOD that value and its own. */
  lemma AnswersFollowRequests(v: Variant, rs: seq<Request>, r: Request)
    requires Run(v, EMPTY, rs).Some?
    ensures var answers, k := Answers(Run(v, EMPTY, rs).value, r), r.key;
            var known, owns := FirstAdd(rs, k).Some?, FirstAdd(rs, k) == Some(r.password);
            var last := LastValue(rs, k);
            answers ==
            if r.command == CMD_GET then [if last.Some? then Value(last.value) else NoPair]
            else if r.command == CMD_ADD then
              (if last.Some? then [Duplicate] else []) + (if known then [PasswordKept] else [])
            else if r.command != CMD_DEL && r.command != CMD_MOD then []
            else if !known then [NoKey]
            else if !owns then [NotAuthenticated]
            else if last.None? then [NoPair]
            else if r.command == CMD_MOD then [Changed(last.value, r.value)]
            else []
  {
    ValuesAreLastWritten(v, rs, r.key);
    PasswordIsFirstAdd(v, EMPTY, rs, r.key);
    AuthenticatesExactly(v, EMPTY, rs, r);
    hide Run, LastValue, FirstAdd, Authenticates;
  }

  /** One more request kills the server exactly when it is not harmless after the others. */
  lemma HarmlessExactly(rs: seq<Request>, r: Request)
    requires Run(AsWritten, EMPTY, rs).Some?
    ensures Serve(AsWritten, Run(AsWritten, EMPTY, rs).value, r).Some? <==> Harmless(rs, r)
  {
    var s := Run(AsWritten, EMPTY, rs).value;
    forall k: Key
      ensures (k in s.passwords <==> FirstAdd(rs, k).Some?) && (k in s.values <==> Present(rs, k))
    {
      PasswordIsFirstAdd(AsWritten, EMPTY, rs, k);
      ValuesArePresent(AsWritten, rs, k);
    }
    AuthenticatesExactly(AsWritten, EMPTY, rs, r);
    hide Run, Present, FirstAdd, Authenticates;
    assert s.passwords == map[] <==> forall k :: k !in s.passwords;
    assert s.values == map[] <==> forall k :: k !in s.values;
  }

  /** The server lives through a sequence of requests exactly when each of them is harmless after
      those before it; with a lookup that returns -1 on a miss, it lives through all of them. */
  lemma {:induction false} SurvivesExactly(v: Variant, rs: seq<Request>)
    ensures Run(v, EMPTY, rs).Some? <==> v.Repaired? || forall i :: 0 <= i < |rs| ==> Harmless(rs[..i], rs[i])
    decreases |rs|
  {
    if v.Repaired? {
      RepairedNeverDies(EMPTY, rs);
    } else if rs != [] {
      var before := rs[..|rs| - 1];
      RunSplits(v, EMPTY, rs);
      SurvivesExactly(v, before);
      assert forall i :: 0 <= i < |before| ==> before[..i] == rs[..i] && before[i] == rs[i];
      if Run(v, EMPTY, before).Some? {
        HarmlessExactly(before, rs[|rs| - 1]);
      }
      hide Harmless, Run, Serve;
    }
  }

  /** Asking for one key after adding another kills the server. */
  lemma MissedGetKills(k: Key, missing: Key, password: Text, value: Text)
    requires k != missing
    ensures Run(AsWritten, EMPTY, [Request(CMD_ADD, password, k, value), Request(CMD_GET, [], missing, [])]) == None
  {
    var add, get := Request(CMD_ADD, password, k, value), Request(CMD_GET, [], missing, []);
    assert [add, get][1..] == [get];
  }

  /** The repaired server answers every request. */
  lemma {:induction false} RepairedNeverDies(s: Store, rs: seq<Request>)
    ensures Run(Repaired, s, rs).Some?
    decreases |rs|
  {
    if rs != [] {
      RepairedNeverDies(Serve(Repaired, s, rs[0]).value, rs[1..]);
    }
  }

  // ---------- the server on its two trees ----------

  /** A malloc'ed string. */
  class Buffer {
    var text: Text

    constructor (text: Text)
      ensures this.text == text
    {
      this.text := text;
    }
  }

  ghost function Texts(m: map<Key, Buffer>): map<Key, Text>
    reads m.Values
  {
    map k | k in m :: m[k].text
  }

  /** No buffer hangs under two keys. */
  ghost predicate Unshared(m: map<Key, Buffer>) {
    forall k, k' :: k in m && k' in m && k != k' ==> m[k] != m[k']
  }

  lemma TextsOfAdd(m: map<Key, Buffer>, k: Key, s: Buffer)
    ensures Texts(m[k := s]) == Texts(m)[k := s.text]
    ensures Unshared(m) && s !in m.Values ==> Unshared(m[k := s])
    ensures m[k := s].Values <= m.Values + {s}
  {
  }

  lemma TextsOfRemoval(m: map<Key, Buffer>, k: Key)
    ensures Texts(m - {k}) == Texts(m) - {k}
    ensures Unshared(m) ==> Unshared(m - {k})
    ensures (m - {k}).Values <= m.Values
  {
  }

  /** Two trees with no node in common. */
  ghost predicate Apart(a: BTree<Buffer>, b: BTree<Buffer>)
    reads a, b, Nodes(a.shape), Nodes(b.shape)
  {
    a != b && a.Valid() && b.Valid() && Nodes(a.shape) !! Nodes(b.shape)
  }

  lemma ApartIsSymmetric(a: BTree<Buffer>, b: BTree<Buffer>)
    requires Apart(a, b)
    ensures Apart(b, a)
  {
  }

  /** strcpy(s = malloc(...), text), bt_add(a, k, s), and free(s) if the key is there. */
  method AddCopy(a: BTree<Buffer>, b: BTree<Buffer>, k: Key, text: Text) returns (s: Buffer, rv: int)
    requires Apart(a, b)
    modifies a, Nodes(a.shape)
    ensures Apart(a, b) && b.Contents() == old(b.Contents())
    ensures fresh(s) && s.text == text && fresh(Nodes(a.shape) - old(Nodes(a.shape)))
    ensures rv == -1 <==> k in old(a.Contents())
    ensures a.Contents() == if k in old(a.Contents()) then old(a.Contents()) else old(a.Contents())[k := s]
  {
    hide Linked, Distinct, View, ToMap, Bst, Insert, Nodes;
    ghost var shape, snap, root, freed := b.shape, Snap(Nodes(b.shape)), b.root, b.freed;
    ghost var snapA := Snap(Nodes(a.shape));
    s := new Buffer(text);
    assert Snap(Nodes(a.shape)) == snapA && Snap(Nodes(b.shape)) == snap;
    rv := a.Add(k, s);
    assert b.shape == shape && b.root == root && b.freed == freed && Snap(Nodes(b.shape)) == snap;
  }

  /** bt_delete(a, k) */
  method DeleteKey(a: BTree<Buffer>, b: BTree<Buffer>, k: Key) returns (rv: int)
    requires Apart(a, b)
    modifies a, Nodes(a.shape)
    ensures Apart(a, b) && b.Contents() == old(b.Contents())
    ensures a.Contents() == old(a.Contents()) - {k} && Nodes(a.shape) <= old(Nodes(a.shape))
    ensures rv == -1 <==> k !in old(a.Contents())
  {
    hide Linked, Distinct, View, ToMap, Bst, Delete, Nodes;
    ghost var shape, snap, root, freed := b.shape, Snap(Nodes(b.shape)), b.root, b.freed;
    rv := a.Delete(k);
    assert b.shape == shape && b.root == root && b.freed == freed && Snap(Nodes(b.shape)) == snap;
  }

  /** strcpy() over a buffer that hangs in one of two trees. */
  method Overwrite(a: BTree<Buffer>, b: BTree<Buffer>, s: Buffer, text: Text)
    requires Apart(a, b)
    modifies s
    ensures s.text == text
    ensures Apart(a, b) && a.Contents() == old(a.Contents()) && b.Contents() == old(b.Contents())
    ensures a.shape == old(a.shape) && b.shape == old(b.shape)
  {
    hide Linked, Distinct, View, ToMap, Bst, Nodes;
    ghost var snapA, snapB := Snap(Nodes(a.shape)), Snap(Nodes(b.shape));
    s.text := text;
    assert Snap(Nodes(a.shape)) == snapA && Snap(Nodes(b.shape)) == snapB;
  }

  class Server {
    const tree: BTree<Buffer>
    const authTree: BTree<Buffer>

    ghost predicate Valid()
      reads this, tree, authTree, Nodes(tree.shape), Nodes(authTree.shape)
    {
      && Apart(tree, authTree) && Unshared(tree.Contents())
      && tree.Contents().Values !! authTree.Contents().Values
    }

    ghost function Contents(): Store
      reads this, tree, authTree, Nodes(tree.shape), Nodes(authTree.shape)
      reads tree.Contents().Values, authTree.Contents().Values
    {
      Store(Texts(tree.Contents()), Texts(authTree.Contents()))
    }

    constructor ()
      ensures Valid() && Contents() == EMPTY
    {
      tree := new BTree();
      authTree := new BTree();
    }

    /** The value tree keeps what it has under the key. */
    method AddValue(k: Key, text: Text) returns (rv: int)
      requires Valid()
      modifies tree, Nodes(tree.shape)
      ensures Valid() && fresh(Nodes(tree.shape) - old(Nodes(tree.shape)))
      ensures Contents() == old(Contents()).(values := AddIfAbsent(old(Contents().values), k, text))
      ensures rv == -1 <==> k in old(Contents().values)
    {
      hide BTree.Valid, ToMap, View, Apart, Nodes;
      ghost var values, passwords := tree.Contents(), authTree.Contents();
      ghost var texts, secrets := Texts(values), Texts(passwords);
      var s;
      s, rv := AddCopy(tree, authTree, k, text);
      assert Texts(values) == texts && Texts(passwords) == secrets;
      TextsOfAdd(values, k, s);
    }

    /** The password tree keeps what it has under the key. */
    method AddPassword(k: Key, text: Text) returns (rv: int)
      requires Valid()
      modifies authTree, Nodes(authTree.shape)
      ensures Valid() && fresh(Nodes(authTree.shape) - old(Nodes(authTree.shape)))
      ensures Contents() == old(Contents()).(passwords := AddIfAbsent(old(Contents().passwords), k, text))
      ensures rv == -1 <==> k in old(Contents().passwords)
    {
      hide BTree.Valid, ToMap, View, Apart, Nodes;
      ghost var values, passwords := tree.Contents(), authTree.Contents();
      ghost var texts, secrets := Texts(values), Texts(passwords);
      ApartIsSymmetric(tree, authTree);
      var s;
      s, rv := AddCopy(authTree, tree, k, text);
      ApartIsSymmetric(authTree, tree);
      assert Texts(values) == texts && Texts(passwords) == secrets;
      TextsOfAdd(passwords, k, s);
    }

    /** CMD_ADD */
    method Add(r: Request) returns (answers: seq<Answer>)
      requires Valid() && r.command == CMD_ADD
      modifies tree, authTree, Nodes(tree.shape), Nodes(authTree.shape)
      ensures Valid()
      ensures Contents() == Store(AddIfAbsent(old(Contents().values), r.key, r.value),
                                  AddIfAbsent(old(Contents().passwords), r.key, r.password))
      ensures answers == Answers(old(Contents()), r)
    {
      hide Valid, Contents;
      var rv := AddValue(r.key, r.value);
      answers := if rv == -1 then [Duplicate] else [];
      rv := AddPassword(r.key, r.password);
      answers := answers + if rv == -1 then [PasswordKept] else [];
    }

    /** bt_lookup in one of the trees. */
    method Lookup(inTree: BTree<Buffer>, k: Key) returns (r: LookupResult<Buffer>)
      requires Valid() && (inTree == tree || inTree == authTree)
      ensures r.NullDereference? <==> LookupCrashes(AsWritten, Texts(inTree.Contents()), k)
      ensures r.Found? <==> k in inTree.Contents()
      ensures r.Found? ==> r.value == inTree.Contents()[k]
      ensures Valid() && tree.Contents() == old(tree.Contents()) && authTree.Contents() == old(authTree.Contents())
      ensures Contents() == old(Contents())
    {
      hide Linked, Distinct, View, ToMap, Bst, Nodes;
      ghost var m, values, passwords := inTree.Contents(), tree.Contents(), authTree.Contents();
      ghost var texts, secrets := Texts(values), Texts(passwords);
      assert Texts(m).Keys == m.Keys;
      ghost var snapA, snapB := Snap(Nodes(tree.shape)), Snap(Nodes(authTree.shape));
      r := inTree.Lookup(k);
      assert Snap(Nodes(tree.shape)) == snapA && Snap(Nodes(authTree.shape)) == snapB;
      assert Texts(values) == texts && Texts(passwords) == secrets;
    }

    /** What CMD_DEL and CMD_MOD do first. */
    method Authenticate(r: Request) returns (alive: bool, ok: bool, answers: seq<Answer>)
      requires Valid() && (r.command == CMD_DEL || r.command == CMD_MOD)
      ensures Valid() && tree.Contents() == old(tree.Contents()) && Contents() == old(Contents())
      ensures alive <==> !LookupCrashes(AsWritten, Contents().passwords, r.key)
      ensures alive ==> (ok <==> Authenticates(Contents(), r))
      ensures alive && !ok ==> answers == Answers(Contents(), r)
    {
      hide BTree.Valid, ToMap, View, Apart, Nodes;
      var lookup := Lookup(authTree, r.key);
      alive, ok, answers := !lookup.NullDereference?, false, [NoKey];
      if lookup.Found? {
        ok := Strcmp(lookup.value.text, r.password) == 0;
        answers := [NotAuthenticated];
      }
    }

    /** CMD_MOD behind the password: the value's buffer is overwritten, no tree is touched. */
    method Modify(k: Key, text: Text) returns (alive: bool, answers: seq<Answer>)
      requires Valid()
      modifies tree.Contents().Values
      ensures Valid()
      ensures alive <==> !LookupCrashes(AsWritten, old(Contents().values), k)
      ensures Contents() == old(Contents()).(values :=
        if k in old(Contents().values) then old(Contents().values)[k := text] else old(Contents().values))
      ensures answers ==
        if k in old(Contents().values) then [Changed(old(Contents().values)[k], text)] else [NoPair]
    {
      hide BTree.Valid, ToMap, View, Nodes;
      ghost var values, passwords := tree.Contents(), authTree.Contents();
      ghost var texts, secrets := Texts(values), Texts(passwords);
      var lookup := Lookup(tree, k);
      alive, answers := !lookup.NullDereference?, [NoPair];
      if lookup.Found? {
        assert lookup.value in values.Values;
        answers := [Changed(lookup.value.text, text)];
        Overwrite(tree, authTree, lookup.value, text);
        assert Texts(passwords) == secrets;
        assert Texts(values) == texts[k := text];
      }
    }

    /** CMD_DEL behind the password. */
    method Remove(k: Key) returns (answers: seq<Answer>)
      requires Valid()
      modifies tree, Nodes(tree.shape)
      ensures Valid() && Contents() == old(Contents()).(values := old(Contents().values) - {k})
      ensures answers == if k in old(Contents().values) then [] else [NoPair]
    {
      hide BTree.Valid, ToMap, View, Nodes;
      ghost var values, passwords := tree.Contents(), authTree.Contents();
      ghost var texts, secrets := Texts(values), Texts(passwords);
      var rv := DeleteKey(tree, authTree, k);
      answers := if rv == -1 then [NoPair] else [];
      assert Texts(values) == texts && Texts(passwords) == secrets;
      TextsOfRemoval(values, k);
    }

    /** One round of the request loop; false when it killed the server. */
    method Handle(r: Request) returns (alive: bool, answers: seq<Answer>)
      requires Valid()
      modifies tree, authTree, Nodes(tree.shape), Nodes(authTree.shape), tree.Contents().Values
      ensures Valid()
      ensures alive <==> Serve(AsWritten, old(Contents()), r).Some?
      ensures alive ==> Serve(AsWritten, old(Contents()), r) == Some(Contents())
      ensures alive ==> answers == Answers(old(Contents()), r)
    {
      hide BTree.Valid, ToMap, View, Apart, Unshared;
      alive, answers := true, [];
      if r.command == CMD_ADD {
        answers := Add(r);
      } else if r.command == CMD_DEL || r.command == CMD_MOD {
        var ok;
        alive, ok, answers := Authenticate(r);
        if alive && ok {
          if r.command == CMD_DEL {
            answers := Remove(r.key);
          } else {
            alive, answers := Modify(r.key, r.value);
          }
        }
      } else if r.command == CMD_GET {
        var lookup := Lookup(tree, r.key);
        alive, answers := !lookup.NullDereference?, [NoPair];
        if lookup.Found? {
          answers := [Value(lookup.value.text)];
        }
      }
    }
  }

  /** A key deleted and added again keeps its first owner's password: the second owner
      cannot touch the value, the first one can. */
  lemma ReAddedKeyKeepsItsFirstOwner(v: Variant, s: Store, k: Key, p1: Text, p2: Text, v1: Text, v2: Text)
    requires Governed(s) && k !in s.passwords && p1 != p2
    ensures var rs := [Request(CMD_ADD, p1, k, v1), Request(CMD_DEL, p1, k, []), Request(CMD_ADD, p2, k, v2)];
      && Run(v, s, rs).Some?
      && k in Run(v, s, rs).value.values && Run(v, s, rs).value.values[k] == v2
      && !Authenticates(Run(v, s, rs).value, Request(CMD_DEL, p2, k, []))
      && Authenticates(Run(v, s, rs).value, Request(CMD_DEL, p1, k, []))
  {
    StrcmpIsRankOrder(p1, p1);
    StrcmpIsRankOrder(p1, p2);
    var add, del, again := Request(CMD_ADD, p1, k, v1), Request(CMD_DEL, p1, k, []), Request(CMD_ADD, p2, k, v2);
    var s1 := Serve(v, s, add).value;
    var s2 := Serve(v, s1, del).value;
    var s3 := Serve(v, s2, again).value;
    assert Run(v, s3, []) == Some(s3);
    assert [again][1..] == [];
    assert Run(v, s2, [again]) == Some(s3);
    assert [del, again][1..] == [again];
    assert Run(v, s1, [del, again]) == Some(s3);
    assert [add, del, again][1..] == [del, again];
  }
}
