/** command/generalhelp.go: the help command lists the commands the sender may run,
    grouped by category. Categories come in the order they first occur in the registry
    and each one lists its commands in registry order. */
module GeneralHelp {
  import opened Common
  import Env
  import opened Commands

  /** The ordered map the handler builds: category name to its commands, in insertion
      order of the categories. */
  type Groups = seq<(string, seq<Info>)>

  /** orderedmap Get: the commands stored under the category, or nil. */
  function GroupOf(m: Groups, cat: string): seq<Info>
  {
    if m == [] then []
    else if m[|m| - 1].0 == cat then m[|m| - 1].1
    else GroupOf(m[..|m| - 1], cat)
  }

  /** The category names of the map, in order. */
  function Keys(m: Groups): (ks: seq<string>)
    ensures |ks| == |m| && forall i :: 0 <= i < |m| ==> ks[i] == m[i].0
  {
    seq(|m|, i requires 0 <= i < |m| => m[i].0)
  }

  /** orderedmap Set: replaces the value of a present key where it stands, or appends a
      new key at the end. */
  function SetGroup(m: Groups, cat: string, v: seq<Info>): (r: Groups)
    ensures |r| == |m| + (if cat in Keys(m) then 0 else 1)
  {
    var i := IndexOf(Keys(m), cat);
    if i == -1 then m + [(cat, v)] else m[i := (cat, v)]
  }

  /** The commands of the list, in order, that the sender may run. */
  function Permitted(env: Env.Settings, address: string, sender: string, cmds: seq<Info>): (r: seq<Info>)
    ensures forall c <- r :: c in cmds && CanSenderRun(env, address, sender, c)
    ensures forall c <- cmds :: CanSenderRun(env, address, sender, c) ==> c in r
  {
    if cmds == [] then []
    else
      var r := Permitted(env, address, sender, cmds[..|cmds| - 1]);
      var c := cmds[|cmds| - 1];
      assert forall x <- cmds[..|cmds| - 1] :: x in cmds;
      if CanSenderRun(env, address, sender, c) then r + [c] else r
  }

  /** Permitted is the filter in order: it works piecewise on a concatenation and on one
      command keeps it exactly when the sender may run it. These two facts define a
      filter completely, so no command is dropped, added, repeated or moved. */
  lemma {:induction false} PermittedAppend(env: Env.Settings, address: string, sender: string, a: seq<Info>, b: seq<Info>)
    ensures Permitted(env, address, sender, a + b) == Permitted(env, address, sender, a) + Permitted(env, address, sender, b)
    ensures forall c: Info :: Permitted(env, address, sender, [c]) == if CanSenderRun(env, address, sender, c) then [c] else []
    decreases |b|
  {
    assert forall c: Info :: [c][..0] == [];
    if b == [] {
      assert a + b == a;
    } else {
      var b' := b[..|b| - 1];
      assert (a + b)[..|a + b| - 1] == a + b';
      assert (a + b)[|a + b| - 1] == b[|b| - 1];
      PermittedAppend(env, address, sender, a, b');
    }
  }

  /** The categories of the commands, each once, in order of first occurrence. */
  function CategoriesOf(cmds: seq<Info>): (cats: seq<string>)
  {
    if cmds == [] then []
    else
      var cats := CategoriesOf(cmds[..|cmds| - 1]);
      var c := cmds[|cmds| - 1].category;
      if c in cats then cats else cats + [c]
  }

  /** The commands of one category, in order. */
  function InCategory(cmds: seq<Info>, cat: string): (r: seq<Info>)
  {
    if cmds == [] then []
    else
      var r := InCategory(cmds[..|cmds| - 1], cat);
      if cmds[|cmds| - 1].category == cat then r + [cmds[|cmds| - 1]] else r
  }

  /** The grouping the first loop is meant to build: every category in order of first
      occurrence, each with its commands in order. */
  function Grouping(cmds: seq<Info>): (m: Groups)
    ensures Keys(m) == CategoriesOf(cmds)
  {
    var cats := CategoriesOf(cmds);
    seq(|cats|, k requires 0 <= k < |cats| => (cats[k], InCategory(cmds, cats[k])))
  }

  /** The position of the first command of a category, or |cmds|. */
  function FirstOf(cmds: seq<Info>, cat: string): (i: nat)
    ensures i <= |cmds|
    ensures i < |cmds| ==> cmds[i].category == cat
    ensures forall k :: 0 <= k < i ==> cmds[k].category != cat
  {
    if cmds == [] || cmds[0].category == cat then 0
    else
      var j := FirstOf(cmds[1..], cat);
      assert forall k :: 1 <= k < |cmds| ==> cmds[k] == cmds[1..][k - 1];
      j + 1
  }

  /** Every category listed occurs among the commands. */
  lemma {:induction false} CategoriesOccur(cmds: seq<Info>)
    ensures forall c <- CategoriesOf(cmds) :: FirstOf(cmds, c) < |cmds|
  {
    if cmds != [] {
      var init := cmds[..|cmds| - 1];
      var last := cmds[|cmds| - 1];
      CategoriesOccur(init);
      forall c <- CategoriesOf(cmds) ensures FirstOf(cmds, c) < |cmds| {
        FirstOfPrefix(init, last, c);
      }
    }
  }

  /** Every command's category is listed. */
  lemma {:induction false} CategoriesComplete(cmds: seq<Info>)
    ensures forall i :: 0 <= i < |cmds| ==> cmds[i].category in CategoriesOf(cmds)
  {
    if cmds != [] {
      var init := cmds[..|cmds| - 1];
      CategoriesComplete(init);
      forall i | 0 <= i < |cmds| - 1 ensures cmds[i].category in CategoriesOf(init) {
        assert init[i] == cmds[i];
      }
    }
  }

  /** The categories are listed in the order in which each first occurs. */
  lemma {:induction false} CategoriesOrdered(cmds: seq<Info>)
    ensures forall i, j :: 0 <= i < j < |CategoriesOf(cmds)| ==>
      FirstOf(cmds, CategoriesOf(cmds)[i]) < FirstOf(cmds, CategoriesOf(cmds)[j])
  {
    if cmds != [] {
      var init := cmds[..|cmds| - 1];
      var last := cmds[|cmds| - 1];
      assert init + [last] == cmds;
      CategoriesOrdered(init);
      CategoriesOccur(init);
      var cats := CategoriesOf(init);
      forall c | c in cats ensures FirstOf(cmds, c) == FirstOf(init, c) {
        FirstOfPrefix(init, last, c);
      }
      if last.category !in cats {
        CategoriesComplete(init);
        assert FirstOf(init, last.category) == |init|;
        FirstOfPrefix(init, last, last.category);
        var all := cats + [last.category];
        forall i, j | 0 <= i < j < |all| ensures FirstOf(cmds, all[i]) < FirstOf(cmds, all[j]) {
          assert all[i] == cats[i] && all[i] in cats;
          if j < |cats| {
            assert all[j] == cats[j] && all[j] in cats;
          } else {
            assert FirstOf(init, all[i]) < |init|;
          }
        }
      }
    }
  }

  /** Appending a command does not move where a category first occurs, unless the
      category was absent before. */
  lemma {:induction false} FirstOfPrefix(init: seq<Info>, last: Info, cat: string)
    ensures FirstOf(init + [last], cat)
      == if FirstOf(init, cat) < |init| then FirstOf(init, cat)
         else if last.category == cat then |init| else |init| + 1
  {
    if init != [] {
      assert (init + [last])[1..] == init[1..] + [last];
      FirstOfPrefix(init[1..], last, cat);
    }
  }

  /** Every listed command sits in its own category's group, the groups hold nothing
      else, and a command the sender may not run is never listed. */
  lemma HelpListsOnlyPermitted(env: Env.Settings, address: string, sender: string)
    ensures var m := Grouping(Permitted(env, address, sender, Registry));
      forall g <- m :: forall c <- g.1 :: c.category == g.0 && c in Registry && CanSenderRun(env, address, sender, c)
  {
    var p := Permitted(env, address, sender, Registry);
    forall cat: string ensures forall c <- InCategory(p, cat) :: c in p && c.category == cat {
      InCategoryMembers(p, cat);
    }
  }

  lemma {:induction false} InCategoryMembers(cmds: seq<Info>, cat: string)
    ensures forall c <- InCategory(cmds, cat) :: c in cmds && c.category == cat
  {
    if cmds != [] {
      InCategoryMembers(cmds[..|cmds| - 1], cat);
      assert forall x <- cmds[..|cmds| - 1] :: x in cmds;
    }
  }

  /** One step of the first loop: adding a command to the end of the list updates the
      grouping the way Get, append and Set do. */
  lemma GroupingSnoc(cmds: seq<Info>, c: Info)
    ensures Grouping(cmds + [c]) == SetGroup(Grouping(cmds), c.category, GroupOf(Grouping(cmds), c.category) + [c])
  {
    var m := Grouping(cmds);
    var cats := CategoriesOf(cmds);
    var all := cmds + [c];
    assert all[..|all| - 1] == cmds;
    GroupOfGrouping(cmds, c.category);
    var i := IndexOf(Keys(m), c.category);
    if i != -1 {
      var r := m[i := (c.category, InCategory(cmds, c.category) + [c])];
      assert CategoriesOf(all) == cats;
      forall k | 0 <= k < |cats| ensures Grouping(all)[k] == r[k] {
        assert InCategory(all, cats[k]) == InCategory(cmds, cats[k]) + (if c.category == cats[k] then [c] else []);
        if k != i {
          CategoriesDistinct(cmds);
          assert cats[k] != c.category;
        }
      }
    }
  }

  /** Looking a category up in the grouping gives its commands. */
  lemma GroupOfGrouping(cmds: seq<Info>, cat: string)
    ensures GroupOf(Grouping(cmds), cat) == InCategory(cmds, cat)
  {
    var m := Grouping(cmds);
    CategoriesDistinct(cmds);
    if cat in CategoriesOf(cmds) {
      var k := IndexOf(CategoriesOf(cmds), cat);
      GroupOfAt(m, k);
    } else {
      GroupOfMissing(m, cat);
      InCategoryMissing(cmds, cat);
    }
  }

  lemma {:induction false} CategoriesDistinct(cmds: seq<Info>)
    ensures forall i, j :: 0 <= i < j < |CategoriesOf(cmds)| ==> CategoriesOf(cmds)[i] != CategoriesOf(cmds)[j]
  {
    if cmds != [] {
      CategoriesDistinct(cmds[..|cmds| - 1]);
    }
  }

  lemma {:induction false} GroupOfAt(m: Groups, k: nat)
    requires k < |m|
    requires forall i, j :: 0 <= i < j < |m| ==> m[i].0 != m[j].0
    ensures GroupOf(m, m[k].0) == m[k].1
  {
    if k < |m| - 1 {
      GroupOfAt(m[..|m| - 1], k);
    }
  }

  lemma {:induction false} GroupOfMissing(m: Groups, cat: string)
    requires cat !in Keys(m)
    ensures GroupOf(m, cat) == []
  {
    if m != [] {
      assert Keys(m[..|m| - 1]) == Keys(m)[..|m| - 1];
      GroupOfMissing(m[..|m| - 1], cat);
    }
  }

  lemma {:induction false} InCategoryMissing(cmds: seq<Info>, cat: string)
    requires cat !in CategoriesOf(cmds)
    ensures InCategory(cmds, cat) == []
  {
    if cmds != [] {
      InCategoryMissing(cmds[..|cmds| - 1], cat);
    }
  }

  /** The help line of one command. */
  function Line(c: Info): string {
    "  " + c.name + ": " + c.description + "\n"
  }

  /** The help lines of a list of commands. */
  function Lines(cs: seq<Info>): string {
    if cs == [] then "" else Lines(cs[..|cs| - 1]) + Line(cs[|cs| - 1])
  }

  /** All the sections: each category's heading followed by its lines. */
  function Sections(m: Groups): string {
    if m == [] then "" else Sections(m[..|m| - 1]) + m[|m| - 1].0 + ":\n" + Lines(m[|m| - 1].1)
  }

  /** The greeting line, for the owner only. */
  function Greeting(env: Env.Settings, sender: string): string {
    if sender == env.owner then "hi " + sender + " <3\n" else ""
  }

  /** The help reply, before trimming. */
  function HelpBody(env: Env.Settings, address: string, sender: string): string {
    Greeting(env, sender) + Sections(Grouping(Permitted(env, address, sender, Registry)))
  }

  /** What anybody but the owner on the home server is shown: the general commands
      only, help then info. */
  lemma HelpForOthers(env: Env.Settings, address: string, sender: string)
    requires !(address == env.homeServer && sender == env.owner)
    ensures Grouping(Permitted(env, address, sender, Registry)) == [("general", [Help, About])]
  {
    RegistryPrefixes();
    var two: seq<Info> := [Help, About];
    assert Permitted(env, address, sender, Registry[..1]) == [Help];
    assert Permitted(env, address, sender, Registry[..2]) == two;
    assert Permitted(env, address, sender, Registry[..3]) == two;
    assert Permitted(env, address, sender, Registry) == two;
    assert CategoriesOf(Registry[..1]) == ["general"];
    assert CategoriesOf(two) == ["general"];
    assert InCategory(Registry[..1], "general") == [Help];
    assert InCategory(two, "general") == two;
  }

  /** What the owner on the home server is shown: general (help, info), then admin
      (server, test). */
  lemma HelpForOwnerAtHome(env: Env.Settings)
    ensures Grouping(Permitted(env, env.homeServer, env.owner, Registry))
      == [("general", [Help, About]), ("admin", [AdminServer, AdminTest])]
  {
    RegistryPrefixes();
    var p := Permitted(env, env.homeServer, env.owner, Registry);
    assert Permitted(env, env.homeServer, env.owner, Registry[..1]) == Registry[..1];
    assert Permitted(env, env.homeServer, env.owner, Registry[..2]) == Registry[..2];
    assert Permitted(env, env.homeServer, env.owner, Registry[..3]) == Registry[..3];
    assert p == Registry;
    RegistryCategories();
    RegistryGroups();
  }

  /** The registry's categories: general, then admin. */
  lemma RegistryCategories()
    ensures CategoriesOf(Registry) == ["general", "admin"]
  {
    RegistryPrefixes();
    assert CategoriesOf(Registry[..1]) == ["general"];
    assert CategoriesOf(Registry[..2]) == ["general"];
    assert CategoriesOf(Registry[..3]) == ["general", "admin"];
  }

  /** The registry's commands by category. */
  lemma RegistryGroups()
    ensures InCategory(Registry, "general") == [Help, About]
    ensures InCategory(Registry, "admin") == [AdminServer, AdminTest]
  {
    RegistryPrefixes();
    assert InCategory(Registry[..1], "general") == [Help];
    assert InCategory(Registry[..2], "general") == [Help, About];
    assert InCategory(Registry[..3], "general") == [Help, About];
    assert InCategory(Registry[..1], "admin") == [];
    assert InCategory(Registry[..2], "admin") == [];
    assert InCategory(Registry[..3], "admin") == [AdminServer];
  }

  /** The registry's prefixes, spelled out. */
  lemma RegistryPrefixes()
    ensures Registry[..0] == [] && Registry[..1] == [Help] && Registry[..2] == [Help, About]
    ensures Registry[..3] == [Help, About, AdminServer]
    ensures Registry[..1][..0] == [] && Registry[..2][..1] == [Help] && Registry[..3][..2] == [Help, About]
    ensures Registry[..4] == Registry && Registry[..4][..3] == Registry[..3]
  {
  }

  /** The first loop of handleGeneralHelp: the permitted commands, grouped by
      category in an ordered map. */
  method GroupPermitted(env: Env.Settings, address: string, sender: string) returns (categories: Groups)
    ensures categories == Grouping(Permitted(env, address, sender, Registry))
  {
    categories := [];
    for i := 0 to |Registry|
      invariant categories == Grouping(Permitted(env, address, sender, Registry[..i]))
    {
      var command := Registry[i];
      assert Registry[..i + 1][..i] == Registry[..i];
      if !CanSenderRun(env, address, sender, command) {
        continue;
      }
      GroupingSnoc(Permitted(env, address, sender, Registry[..i]), command);
      var category := GroupOf(categories, command.category);
      category := category + [command];
      categories := SetGroup(categories, command.category, category);
    }
    assert Registry[..|Registry|] == Registry;
  }

  /** The inner loop of handleGeneralHelp's second loop: one line per command. */
  method WriteLines(head: string, cs: seq<Info>) returns (out: string)
    ensures out == head + Lines(cs)
  {
    out := head;
    for j := 0 to |cs|
      invariant out == head + Lines(cs[..j])
    {
      assert cs[..j + 1][..j] == cs[..j];
      out := out + Line(cs[j]);
    }
    assert cs[..|cs|] == cs;
  }

  /** The second loop of handleGeneralHelp: one heading per category, then its lines. */
  method WriteSections(greeting: string, categories: Groups) returns (out: string)
    ensures out == greeting + Sections(categories)
  {
    out := greeting;
    for k := 0 to |categories|
      invariant out == greeting + Sections(categories[..k])
    {
      assert categories[..k + 1][..k] == categories[..k];
      var cat := categories[k];
      out := WriteLines(out + cat.0 + ":\n", cat.1);
    }
    assert categories[..|categories|] == categories;
  }

  /** handleGeneralHelp: replies with the greeting and the sections, trimmed. The
      address is that of the client the line came from. */
  method HandleGeneralHelp(env: Env.Settings, address: string, sender: string) returns (h: Handled)
    ensures h == Replied(TrimSpace(HelpBody(env, address, sender)))
  {
    var categories := GroupPermitted(env, address, sender);
    var out := WriteSections(Greeting(env, sender), categories);
    return Replied(TrimSpace(out));
  }
}
