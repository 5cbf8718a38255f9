/** cmdmenu/: a tree of sub-commands. A menu picks a child by the first argument and
    hands it the rest; a command runs its handler once it has enough arguments. Either
    one prints a usage line built from the chain of menus above it when it cannot go
    on. The tree's shape is fixed when it is built; the only field that changes is each
    node's current parent. */
module CmdMenu {
  import opened Common

  /** What running a node comes to: a handler called with its arguments, or a usage
      line handed to the usage printer. */
  datatype Outcome<H> = Invoke(handler: H, args: seq<string>) | PrintUsage(text: string)

  /** The fixed shape of a node and everything below it: a Menu with its children in
      declaration order, or a Command with its minimum argument count (Args), its
      usage text and its handler. */
  datatype Tree<H> =
    | MenuT(name: string, children: seq<Tree<H>>)
    | CommandT(name: string, arity: int, usage: string, handle: H)

  /** The names of a list of trees, in order. */
  function Names<H>(ts: seq<Tree<H>>): (r: seq<string>)
    ensures |r| == |ts| && forall i :: 0 <= i < |ts| ==> r[i] == ts[i].name
  {
    seq(|ts|, i requires 0 <= i < |ts| => ts[i].name)
  }

  /** getCallStack: every parent's name followed by one space, then the name. */
  function CallStack(name: string, parents: seq<string>): (s: string)
  {
    if parents == [] then name else parents[0] + " " + CallStack(name, parents[1..])
  }

  /** The call stack is the names from the root down, joined with single spaces. */
  lemma {:induction false} CallStackIsJoin(name: string, parents: seq<string>)
    ensures CallStack(name, parents) == Join(parents + [name], " ")
  {
    if parents != [] {
      CallStackIsJoin(name, parents[1..]);
      assert (parents + [name])[1..] == parents[1..] + [name];
    }
  }

  /** The sum over the parents of their length plus one. */
  function StackPrefixLength(parents: seq<string>): nat
  {
    if parents == [] then 0 else |parents[0]| + 1 + StackPrefixLength(parents[1..])
  }

  /** The call stack is as long as every parent name plus its space, plus the name, and
      it ends with the name; with no parents it is the name itself. */
  lemma {:induction false} CallStackShape(name: string, parents: seq<string>)
    ensures |CallStack(name, parents)| == StackPrefixLength(parents) + |name|
    ensures CallStack(name, parents)[StackPrefixLength(parents)..] == name
    ensures parents == [] ==> CallStack(name, parents) == name
  {
    if parents != [] {
      CallStackShape(name, parents[1..]);
      var rest := CallStack(name, parents[1..]);
      assert CallStack(name, parents) == (parents[0] + " ") + rest;
    }
  }

  /** The first of the names equal to the given one, or -1. */
  function FirstMatch(names: seq<string>, name: string): (i: int)
    ensures -1 <= i < |names|
    ensures i == -1 <==> name !in names
    ensures 0 <= i ==> names[i] == name && name !in names[..i]
  {
    IndexOf(names, name)
  }

  /** What running a node of this shape does with these arguments, below a chain of
      menus with these names. */
  function Decide<H>(t: Tree<H>, parents: seq<string>, args: seq<string>): Outcome<H>
  {
    match t
    case CommandT(name, arity, usage, handle) =>
      if arity == 0 || |args| >= arity then Invoke(handle, args)
      else PrintUsage(CallStack(name, parents) + " " + usage)
    case MenuT(name, cs) =>
      var i := if |args| > 0 then FirstMatch(Names(cs), ToLower(args[0])) else -1;
      if i >= 0 then Decide(cs[i], parents + [name], args[1..])
      else PrintUsage(CallStack(name, parents) + " <subcommand>\n  " + Join(Names(cs), ", "))
  }

  /** A Command runs its handler exactly when Args is 0 or there are at least Args
      arguments, and then hands over every argument; otherwise it prints the call stack,
      a space and its usage text. */
  lemma CommandGate<H>(t: Tree<H>, parents: seq<string>, args: seq<string>)
    requires t.CommandT?
    ensures Decide(t, parents, args).Invoke? <==> t.arity == 0 || |args| >= t.arity
    ensures Decide(t, parents, args).Invoke? ==> Decide(t, parents, args) == Invoke(t.handle, args)
    ensures Decide(t, parents, args).PrintUsage? ==>
      Decide(t, parents, args).text == Join(parents + [t.name], " ") + " " + t.usage
  {
    CallStackIsJoin(t.name, parents);
  }

  /** The first child named like the lower-cased first argument is run on the remaining
      arguments, with this menu's name added to the chain of parents. */
  lemma MenuPicksFirstMatch<H>(t: Tree<H>, parents: seq<string>, args: seq<string>, i: nat)
    requires t.MenuT? && |args| > 0
    requires i < |t.children| && t.children[i].name == ToLower(args[0])
    requires forall k :: 0 <= k < i ==> t.children[k].name != ToLower(args[0])
    ensures Decide(t, parents, args) == Decide(t.children[i], parents + [t.name], args[1..])
  {
    var names := Names(t.children);
    assert ToLower(args[0]) !in names[..i] by {
      forall k | 0 <= k < i ensures names[..i][k] != ToLower(args[0]) {
        assert names[..i][k] == t.children[k].name;
      }
    }
  }

  /** With no arguments, or no child of that name, a menu prints its call stack, the
      word <subcommand>, and on the next line every child's name in declaration order. */
  lemma MenuUsage<H>(t: Tree<H>, parents: seq<string>, args: seq<string>)
    requires t.MenuT?
    requires |args| == 0 || forall c <- t.children :: c.name != ToLower(args[0])
    ensures Decide(t, parents, args)
      == PrintUsage(Join(parents + [t.name], " ") + " <subcommand>\n  " + Join(Names(t.children), ", "))
  {
    CallStackIsJoin(t.name, parents);
    if |args| > 0 {
      var names := Names(t.children);
      forall k | 0 <= k < |names| ensures names[k] != ToLower(args[0]) {
        assert t.children[k] in t.children;
      }
    }
  }

  /** A child whose name holds an upper-case letter never matches, whatever is typed. */
  lemma UpperCaseChildUnreachable<H>(cs: seq<Tree<H>>, j: nat, typed: string)
    requires j < |cs| && HasUpper(cs[j].name)
    ensures FirstMatch(Names(cs), ToLower(typed)) != j
  {
    ToLowerHasNoUpper(typed);
  }

  /** A handler is only ever handed a tail of the arguments the outermost node got:
      each menu level drops exactly one, and nothing is cut from the end. */
  lemma {:induction false} InvokedArgsAreSuffix<H>(t: Tree<H>, parents: seq<string>, args: seq<string>)
    ensures Decide(t, parents, args).Invoke? ==>
      exists k :: 0 <= k <= |args| && Decide(t, parents, args).args == args[k..]
  {
    match t
    case CommandT(_, _, _, _) =>
      assert args == args[0..];
    case MenuT(name, cs) =>
      var i := if |args| > 0 then FirstMatch(Names(cs), ToLower(args[0])) else -1;
      if i >= 0 {
        InvokedArgsAreSuffix(cs[i], parents + [name], args[1..]);
        if Decide(t, parents, args).Invoke? {
          var k :| 0 <= k <= |args[1..]| && Decide(t, parents, args).args == args[1..][k..];
          assert args[1..][k..] == args[k + 1..];
        }
      }
  }

  /** Every command of the tree that holds this handler asks for at least n
      arguments. */
  ghost predicate ArityAtLeast<H>(t: Tree<H>, h: H, n: int) {
    match t
    case CommandT(_, arity, _, handle) => handle == h ==> arity >= n
    case MenuT(_, cs) => forall i :: 0 <= i < |cs| ==> ArityAtLeast(cs[i], h, n)
  }

  /** A handler whose commands all ask for at least n > 0 arguments is only ever run
      with at least n of them. */
  lemma {:induction false} InvokedHasArity<H>(t: Tree<H>, parents: seq<string>, args: seq<string>, h: H, n: int)
    requires n > 0 && ArityAtLeast(t, h, n)
    ensures Decide(t, parents, args).Invoke? && Decide(t, parents, args).handler == h ==>
      |Decide(t, parents, args).args| >= n
  {
    match t
    case CommandT(_, _, _, _) =>
    case MenuT(name, cs) =>
      var i := if |args| > 0 then FirstMatch(Names(cs), ToLower(args[0])) else -1;
      if i >= 0 {
        InvokedHasArity(cs[i], parents + [name], args[1..], h, n);
      }
  }

  /** The highest height among a list of nodes. */
  ghost function MaxHeight<H>(cs: seq<Node<H>>): (h: nat)
    ensures forall c <- cs :: c.height <= h
  {
    if cs == [] then 0
    else
      var h := MaxHeight(cs[1..]);
      assert forall c <- cs :: c == cs[0] || c in cs[1..];
      if cs[0].height > h then cs[0].height else h
  }

  /** Every object of a list of nodes' subtrees. */
  ghost function ReprOf<H>(cs: seq<Node<H>>): (r: set<object>)
    ensures forall c <- cs :: c.Repr <= r
  {
    if cs == [] then {}
    else
      assert forall c <- cs :: c == cs[0] || c in cs[1..];
      cs[0].Repr + ReprOf(cs[1..])
  }

  /** The shapes of a list of nodes. */
  function ShapesOf<H>(cs: seq<Node<H>>): (r: seq<Tree<H>>)
    requires forall c <- cs :: c.Valid()
    ensures |r| == |cs| && forall i :: 0 <= i < |cs| ==> r[i] == cs[i].Shape()
  {
    seq(|cs|, i requires 0 <= i < |cs| => assert cs[i] in cs; cs[i].Shape())
  }

  /** The node kinds: a Menu holds its children, a Command its arity, usage text and
      handler. */
  datatype Kind<H> = MenuOf(children: seq<Node<H>>) | CommandOf(arity: int, usage: string, handle: H)

  /** A Menu or a Command. Its name and kind are fixed when it is built; only the
      current parent changes. */
  class Node<H> {
    const name: string
    const kind: Kind<H>
    ghost const height: nat
    ghost const Repr: set<object>
    /** currentParent */
    var currentParent: Node?<H>

    /** The tree below this node is finite, and its footprint holds every node of it. */
    ghost predicate Valid()
      decreases height
    {
      this in Repr &&
      match kind
      case CommandOf(_, _, _) => true
      case MenuOf(cs) => forall c <- cs :: c in Repr && c.height < height && c.Repr <= Repr && c.Valid()
    }

    /** The node's shape, down to the leaves. */
    function Shape(): (t: Tree<H>)
      requires Valid()
      ensures t.name == name
      decreases height
    {
      match kind
      case CommandOf(arity, usage, handle) => CommandT(name, arity, usage, handle)
      case MenuOf(cs) => MenuT(name, seq(|cs|, i requires 0 <= i < |cs| => cs[i].Shape()))
    }

    /** The child a Menu runs for these arguments: the first one named like the
        lower-cased first argument, or -1 when there is no argument or no such child. */
    function ChildIndex(args: seq<string>): (i: int)
      requires Valid() && kind.MenuOf?
      ensures -1 <= i < |kind.children|
    {
      if |args| > 0 then FirstMatch(Names(ShapesOf(kind.children)), ToLower(args[0])) else -1
    }

    /** The current parents a run with these arguments sets, node by node: each child
        the run descends into gets the menu that chose it, and a later assignment to the
        same node wins. */
    ghost function ParentUpdates(args: seq<string>): (u: map<Node<H>, Node<H>>)
      requires Valid()
      ensures forall n <- u.Keys :: n in Repr
      decreases height
    {
      match kind
      case CommandOf(_, _, _) => map[]
      case MenuOf(cs) =>
        var i := ChildIndex(args);
        if i < 0 then map[]
        else
          assert cs[i] in cs;
          map[cs[i] := this] + cs[i].ParentUpdates(args[1..])
    }

    /** A Command node. */
    constructor Command(name: string, arity: int, usage: string, handle: H)
      ensures Valid() && fresh(Repr)
      ensures Shape() == CommandT(name, arity, usage, handle) && currentParent == null
    {
      this.name := name;
      kind := CommandOf(arity, usage, handle);
      height := 0;
      Repr := {this};
      currentParent := null;
    }

    /** A Menu node over already built children. */
    constructor Menu(name: string, children: seq<Node<H>>)
      requires forall c <- children :: c.Valid()
      ensures Valid() && fresh(Repr - ReprOf(children))
      ensures Shape() == MenuT(name, ShapesOf(children)) && currentParent == null
    {
      this.name := name;
      kind := MenuOf(children);
      height := MaxHeight(children) + 1;
      Repr := {this} + ReprOf(children);
      currentParent := null;
    }

    /** setOrGetParent: a non-nil argument is stored and nil is returned; nil returns
        the stored parent and stores nothing. */
    method SetOrGetParent(r: Node?<H>) returns (p: Node?<H>)
      modifies this
      ensures r != null ==> currentParent == r && p == null
      ensures r == null ==> currentParent == old(currentParent) && p == old(currentParent)
    {
      if r != null {
        currentParent := r;
        return null;
      }
      return currentParent;
    }

    /** Run: a Command checks its arity; a Menu searches its children for the lower-cased
        first argument, makes itself the match's parent and runs it on the rest, or else
        lists its children's names. The parents are the menus above, outermost first. */
    method Run(args: seq<string>, parents: seq<string>) returns (o: Outcome<H>)
      requires Valid()
      modifies Repr
      ensures o == Decide(Shape(), parents, args)
      ensures forall n: Node<H> | n in Repr ::
        n.currentParent == if n in ParentUpdates(args) then ParentUpdates(args)[n] else old(n.currentParent)
      decreases height, 1
    {
      match kind
      case CommandOf(arity, usage, handle) =>
        if arity == 0 || |args| >= arity {
          return Invoke(handle, args);
        }
        return PrintUsage(CallStack(name, parents) + " " + usage);
      case MenuOf(cs) =>
        var i := FindChild(args);
        if i >= 0 {
          o := Descend(i, args, parents);
          return;
        }
        assert ParentUpdates(args) == map[];
        var names := ChildNames();
        return PrintUsage(CallStack(name, parents) + " <subcommand>\n  " + Join(names, ", "));
    }

    /** The search loop of a Menu's Run. */
    method FindChild(args: seq<string>) returns (i: int)
      requires Valid() && kind.MenuOf?
      ensures i == ChildIndex(args)
    {
      var cs := kind.children;
      ghost var names := Names(ShapesOf(cs));
      if |args| == 0 {
        return -1;
      }
      var wanted := ToLower(args[0]);
      i := 0;
      while i < |cs| && wanted != cs[i].name
        invariant 0 <= i <= |cs|
        invariant wanted !in names[..i]
      {
        assert names[..i + 1] == names[..i] + [cs[i].name];
        i := i + 1;
      }
      if i == |cs| {
        assert names[..|cs|] == names;
        return -1;
      }
    }

    /** The names a Menu's usage lists, collected into a slice. */
    method ChildNames() returns (r: seq<string>)
      requires Valid() && kind.MenuOf?
      ensures r == Names(ShapesOf(kind.children))
    {
      var cs := kind.children;
      var names := new string[|cs|];
      for i := 0 to |cs|
        invariant forall k :: 0 <= k < i ==> names[k] == cs[k].name
      {
        names[i] := cs[i].name;
      }
      return names[..];
    }

    /** A Menu's Run once the child is found: set its parent to this menu, then run it
        on the remaining arguments. */
    method Descend(i: int, args: seq<string>, parents: seq<string>) returns (o: Outcome<H>)
      requires Valid() && kind.MenuOf? && 0 <= i && i == ChildIndex(args)
      modifies Repr
      ensures o == Decide(Shape(), parents, args)
      ensures forall n: Node<H> | n in Repr ::
        n.currentParent == if n in ParentUpdates(args) then ParentUpdates(args)[n] else old(n.currentParent)
      decreases height, 0
    {
      var child := kind.children[i];
      assert child in kind.children;
      var _ := child.SetOrGetParent(this);
      ghost var chosen := map n: Node<H> | n in Repr :: n.currentParent;
      assert forall n: Node<H> | n in Repr :: chosen[n] == if n == child then this else old(n.currentParent);
      o := child.Run(args[1..], parents + [name]);
      ghost var u := child.ParentUpdates(args[1..]);
      assert forall n: Node<H> | n in child.Repr :: n.currentParent == if n in u then u[n] else chosen[n];
      assert forall n: Node<H> | n in Repr && n !in child.Repr :: n.currentParent == chosen[n];
      ghost var all := ParentUpdates(args);
      assert all == map[child := this] + u;
      assert forall n: Node<H> :: n in all <==> n == child || n in u;
      assert forall n: Node<H> | n in all :: all[n] == if n in u then u[n] else this;
    }
  }
}
