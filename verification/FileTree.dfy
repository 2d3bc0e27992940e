/**
 * Path strings taken apart as `Path::components` does, and a tree of nodes the
 * kernel walks them in (POSIX.1-2017 Base Definitions, section 4.13): `.` stays,
 * `..` goes to the parent, the root is its own parent. Symbolic links are
 * entries a walk refuses.
 */
module FileTree {
  import opened Wrappers
  import opened Packing

  // ------------------------------------------------------- Strings

  /** The pieces of `s` between its slashes: one more than it has slashes. */
  function Split(s: string): (pieces: seq<string>)
    ensures pieces != []
    ensures forall p :: p in pieces ==> '/' !in p
  {
    if s == "" then [""]
    else
      var rest := Split(s[1..]);
      if s[0] == '/' then [""] + rest else [[s[0]] + rest[0]] + rest[1..]
  }

  lemma {:induction false} SplitOne(s: string)
    requires '/' !in s
    ensures Split(s) == [s]
  {
    if s != "" {
      SplitOne(s[1..]);
      assert [s[0]] + s[1..] == s;
    }
  }

  lemma {:induction false} SplitJoint(a: string, b: string)
    ensures Split(a + ['/'] + b) == Split(a) + Split(b)
  {
    if a == "" {
      assert a + ['/'] + b == ['/'] + b;
      assert (['/'] + b)[1..] == b;
    } else {
      assert (a + ['/'] + b)[1..] == a[1..] + ['/'] + b;
      SplitJoint(a[1..], b);
    }
  }

  lemma {:induction false} SplitJoin(names: seq<string>)
    requires names != [] && forall n :: n in names ==> '/' !in n
    ensures Split(Join(names, '/')) == names
  {
    SplitOne(names[0]);
    if |names| > 1 {
      SplitJoin(names[1..]);
      SplitJoint(names[0], Join(names[1..], '/'));
      assert Join(names, '/') == names[0] + ['/'] + Join(names[1..], '/');
      assert [names[0]] + names[1..] == names;
    } else {
      assert names == [names[0]];
    }
  }

  predicate IsName(s: string) {
    s != "" && s != "." && s != ".." && '/' !in s
  }

  predicate AllNames(names: seq<string>) {
    forall n :: n in names ==> IsName(n)
  }

  datatype Component = RootDir | CurDir | ParentDir | Normal(name: string)

  /** The pieces that name something or go up. */
  function Plain(pieces: seq<string>): (steps: seq<Component>) {
    if pieces == [] then []
    else if pieces[0] == "" || pieces[0] == "." then Plain(pieces[1..])
    else [if pieces[0] == ".." then ParentDir else Normal(pieces[0])] + Plain(pieces[1..])
  }

  lemma {:induction false} PlainConcat(a: seq<string>, b: seq<string>)
    ensures Plain(a + b) == Plain(a) + Plain(b)
  {
    if a == [] {
      assert a + b == b;
    } else {
      assert (a + b)[1..] == a[1..] + b;
      PlainConcat(a[1..], b);
    }
  }

  function Named(names: seq<string>): (steps: seq<Component>)
    ensures |steps| == |names|
  {
    seq(|names|, i requires 0 <= i < |names| => Normal(names[i]))
  }

  lemma {:induction false} PlainNames(names: seq<string>)
    requires AllNames(names)
    ensures Plain(names) == Named(names)
  {
    if names != [] {
      assert IsName(names[0]);
      PlainNames(names[1..]);
      assert Named(names) == [Normal(names[0])] + Named(names[1..]);
    }
  }

  predicate IsAbsolute(s: string) {
    s != "" && s[0] == '/'
  }

  /** `Path::components`: `.` shows only where it leads. */
  function Components(s: string): (steps: seq<Component>) {
    (if IsAbsolute(s) then [RootDir] else if Split(s)[0] == "." then [CurDir] else []) + Plain(Split(s))
  }

  lemma {:induction false} PlainAreNames(pieces: seq<string>)
    requires forall p :: p in pieces ==> '/' !in p
    ensures forall i :: 0 <= i < |Plain(pieces)| && Plain(pieces)[i].Normal? ==> IsName(Plain(pieces)[i].name)
  {
    if pieces != [] {
      assert pieces[0] in pieces;
      PlainAreNames(pieces[1..]);
    }
  }

  /** A normal component is a name: not empty, not `.`, not `..`, without a slash. */
  lemma ComponentsAreNames(s: string)
    ensures forall i :: 0 <= i < |Components(s)| && Components(s)[i].Normal? ==> IsName(Components(s)[i].name)
  {
    PlainAreNames(Split(s));
  }

  /** An absolute path as text. */
  function Show(names: seq<string>): (s: string)
    ensures IsAbsolute(s)
  {
    ['/'] + Join(names, '/')
  }

  lemma ComponentsOfShow(names: seq<string>)
    requires AllNames(names)
    ensures Components(Show(names)) == [RootDir] + Named(names)
  {
    var joined := Join(names, '/');
    assert Show(names)[1..] == joined;
    if names == [] {
      assert Split(joined) == [""];
      assert ([""] + [""])[1..] == [""] && [""][1..] == [];
      assert Plain([""]) == [];
    } else {
      SplitJoin(names);
      PlainNames(names);
      assert ([""] + names)[1..] == names;
    }
  }

  // ------------------------------------------------------- The tree

  datatype Errno = NoEntry | NotDir | Loop | NameTooLong | Invalid

  datatype Entry = Node(node: nat) | Link

  datatype Tree = Tree(child: map<(nat, string), Entry>, up: map<nat, nat>, dirs: set<nat>, root: nat) {
    function Parent(n: nat): nat {
      if n in up then up[n] else root
    }

    /** The root is its own parent, and a directory's parent is the one it is an entry of. */
    ghost predicate Valid() {
      && root in dirs && Parent(root) == root
      && (forall k :: k in child && child[k].Node? && child[k].node in dirs ==> Parent(child[k].node) == k.0)
    }

    ghost predicate NoLinks() {
      forall k :: k in child ==> child[k].Node?
    }

    /** Every entry has a name the kernel can be given. */
    ghost predicate ShortNames(limit: nat) {
      forall k :: k in child ==> |k.1| < limit
    }

    /** One component from `n`. */
    function Enter(n: nat, piece: string): (r: Result<nat, Errno>)
      ensures r.Err? ==> !r.error.NameTooLong?
    {
      if n !in dirs then Err(NotDir)
      else if piece == "" || piece == "." then Ok(n)
      else if piece == ".." then Ok(Parent(n))
      else if (n, piece) !in child then Err(NoEntry)
      else if child[(n, piece)].Link? then Err(Loop)
      else Ok(child[(n, piece)].node)
    }

    /** One component after another. */
    function Walk(n: nat, pieces: seq<string>): (r: Result<nat, Errno>)
      ensures r.Err? ==> !r.error.NameTooLong?
      decreases |pieces|
    {
      if pieces == [] then Ok(n)
      else
        match Enter(n, pieces[0])
        case Err(e) => Err(e)
        case Ok(m) => Walk(m, pieces[1..])
    }

    lemma {:induction false} WalkConcat(n: nat, a: seq<string>, b: seq<string>)
      ensures Walk(n, a + b) == if Walk(n, a).Ok? then Walk(Walk(n, a).value, b) else Walk(n, a)
      decreases |a|
    {
      if a == [] {
        assert a + b == b;
      } else {
        assert (a + b)[0] == a[0] && (a + b)[1..] == a[1..] + b;
        if Enter(n, a[0]).Ok? {
          WalkConcat(Enter(n, a[0]).value, a[1..], b);
        }
      }
    }
  }
}
