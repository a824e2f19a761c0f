/**
 set_launch_options of install.py as a whole: what it returns, that the text it
 returns reads back as the tree with the options set, and when reading the
 options back from it gives what was set.
*/
module VdfOptions {
  import opened Vdf
  import opened VdfTree
  import opened VdfEdit
  import opened Wrappers

  /** Where the options go, by walking from the root one key at a time. */
  method Spotted(lower: Lower, root: seq<Node>) returns (r: Option<(Spot, string)>)
    ensures r == FindSpot(lower, root)
  {
    hide PathTo, IndexOf;
    var path := AppsPath();
    var nodes := root;
    var close: nat := 0;
    var k := 0;
    while k < |path|
      invariant k <= |path|
      invariant k < |path| ==> PathTo(lower, root, path) == PathTo(lower, nodes, path[k..])
      invariant k == |path| ==> LeadsTo(lower, root, path, nodes, close)
    {
      var i := FindChild(lower, nodes, path[k]);
      PathToStep(lower, nodes, path[k..]);
      assert path[k..][1..] == path[k + 1..];
      if i == |nodes| || nodes[i].Value? {
        return None;
      }
      close := nodes[i].close;
      nodes := nodes[i].children;
      k := k + 1;
    }
    var i := FindChild(lower, nodes, APP_ID);
    if i == |nodes| || nodes[i].Value? {
      return Some((InApps(close), ""));
    }
    var j := FindChild(lower, nodes[i].children, OPTIONS);
    if j == |nodes[i].children| {
      return Some((InApp(nodes[i].close), ""));
    }
    var options := nodes[i].children[j];
    return if options.Value? then Some((Over(options.at), options.text)) else None;
  }

  predicate LeadsTo(lower: Lower, root: seq<Node>, path: seq<string>, children: seq<Node>, close: nat)
    requires path != []
  {
    var n := PathTo(lower, root, path);
    n.Some? && n.value.Block? && n.value.children == children && n.value.close == close
  }

  lemma PathToStep(lower: Lower, nodes: seq<Node>, path: seq<string>)
    requires path != []
    ensures PathTo(lower, nodes, path) ==
      var i := IndexOf(lower, nodes, path[0]);
      if i == |nodes| then None
      else if |path| == 1 then Some(nodes[i])
      else if nodes[i].Block? then PathTo(lower, nodes[i].children, path[1..])
      else None
  {
  }

  /** The new text, and the options before and after; none where the original raises an error. */
  method SetLaunchOptions(lower: Lower, text: string, transform: string -> string)
    returns (r: Option<(string, string, string)>)
    ensures r.Some? <==> Parse(text).Some? && FindSpot(lower, Parse(text).value.1).Some?
    ensures r.Some? ==>
      var (spot, old') := FindSpot(lower, Parse(text).value.1).value;
      && SpotOk(text, Parse(text).value.0, spot)
      && r.value.1 == old' && r.value.2 == transform(old')
      && r.value.0 == if transform(old') == old' then text
        else NewText(text, Parse(text).value.0, spot, transform(old'))
  {
    hide Parse, FindSpot, SpotOk, NewText, SetAt, Plain, SpotPath, SpotChange;
    var parsed := ParseVdf(text);
    if parsed == None {
      return None;
    }
    var (lexemes, root) := parsed.value;
    var found := Spotted(lower, root);
    if found == None {
      return None;
    }
    var (spot, old') := found.value;
    var new' := transform(old');
    EditedTree(lower, text, new');
    if new' == old' {
      return Some((text, old', new'));
    }
    return Some((NewText(text, lexemes, spot, new'), old', new'));
  }

  // ---- reading the options back ----

  /** What a path leads to, places aside. */
  function TreeTo(lower: Lower, trees: seq<Tree>, path: seq<string>): Option<Tree>
    requires path != []
    decreases |path|
  {
    var i := TreeIndexOf(lower, trees, path[0]);
    if i == |trees| then None
    else if |path| == 1 then Some(trees[i])
    else if trees[i].Branch? then TreeTo(lower, trees[i].kids, path[1..])
    else None
  }

  lemma {:induction false} PlainTo(lower: Lower, nodes: seq<Node>, path: seq<string>)
    requires path != []
    ensures TreeTo(lower, Plain(nodes), path) ==
      if PathTo(lower, nodes, path).Some? then Some(PlainOne(PathTo(lower, nodes, path).value)) else None
    decreases |path|
  {
    hide Plain, PlainOne, IndexOf, TreeIndexOf;
    SameIndex(lower, nodes, path[0]);
    var i := IndexOf(lower, nodes, path[0]);
    if i < |nodes| {
      PlainAt(nodes, i);
      PlainKey(nodes[i]);
      if |path| > 1 && nodes[i].Block? {
        PlainTo(lower, nodes[i].children, path[1..]);
      }
    }
  }

  lemma {:induction false} TreeToOn(lower: Lower, trees: seq<Tree>, path: seq<string>, more: seq<string>)
    requires path != [] && more != []
    ensures TreeTo(lower, trees, path + more) ==
      var x := TreeTo(lower, trees, path);
      if x.Some? && x.value.Branch? then TreeTo(lower, x.value.kids, more) else None
    decreases |path|
  {
    var i := TreeIndexOf(lower, trees, path[0]);
    assert (path + more)[0] == path[0] && (path + more)[1..] == path[1..] + more;
    if i < |trees| {
      if |path| == 1 {
        assert path[1..] + more == more;
      } else if trees[i].Branch? {
        TreeToOn(lower, trees[i].kids, path[1..], more);
      }
    }
  }

  lemma {:induction false} IndexKept(lower: Lower, trees: seq<Tree>, key: string, tree: Tree)
    requires TreeIndexOf(lower, trees, key) < |trees| && lower(tree.key) == lower(key)
    ensures TreeIndexOf(lower, trees[TreeIndexOf(lower, trees, key) := tree], key) == TreeIndexOf(lower, trees, key)
    decreases |trees|
  {
    var i := TreeIndexOf(lower, trees, key);
    var trees' := trees[i := tree];
    if i > 0 {
      IndexKept(lower, trees[1..], key, tree);
      assert trees'[1..] == trees[1..][i - 1 := tree];
    }
  }

  lemma {:induction false} IndexIs(lower: Lower, trees: seq<Tree>, key: string)
    ensures var i := TreeIndexOf(lower, trees, key); i < |trees| ==> lower(trees[i].key) == lower(key)
  {
    if trees != [] && lower(trees[0].key) != lower(key) {
      IndexIs(lower, trees[1..], key);
    }
  }

  /** A change that keeps the key is found where it was made. */
  lemma {:induction false} SetThenTo(lower: Lower, trees: seq<Tree>, path: seq<string>, change: Change)
    requires path != [] && TreeTo(lower, trees, path).Some?
    requires change(TreeTo(lower, trees, path).value).key == TreeTo(lower, trees, path).value.key
    ensures TreeTo(lower, SetAt(lower, trees, path, change), path) == Some(change(TreeTo(lower, trees, path).value))
    decreases |path|
  {
    hide TreeIndexOf;
    var i := TreeIndexOf(lower, trees, path[0]);
    IndexIs(lower, trees, path[0]);
    if |path| == 1 {
      IndexKept(lower, trees, path[0], change(trees[i]));
    } else {
      SetThenTo(lower, trees[i].kids, path[1..], change);
      IndexKept(lower, trees, path[0], Branch(trees[i].key, SetAt(lower, trees[i].kids, path[1..], change)));
    }
  }

  lemma {:induction false} IndexAppended(lower: Lower, trees: seq<Tree>, extra: Tree, key: string)
    ensures TreeIndexOf(lower, trees + [extra], key) ==
      if TreeIndexOf(lower, trees, key) == |trees| && lower(extra.key) != lower(key) then |trees| + 1
      else TreeIndexOf(lower, trees, key)
  {
    if trees == [] {
      assert trees + [extra] == [extra] && [extra][1..] == [];
    } else {
      assert (trees + [extra])[1..] == trees[1..] + [extra];
      IndexAppended(lower, trees[1..], extra, key);
    }
  }

  /** What one key leads to among nodes with one more at their end. */
  lemma StepAppended(lower: Lower, trees: seq<Tree>, extra: Tree, key: string)
    requires extra.key == key
    ensures TreeTo(lower, trees + [extra], [key]) ==
      Some(if TreeTo(lower, trees, [key]).Some? then TreeTo(lower, trees, [key]).value else extra)
  {
    IndexAppended(lower, trees, extra, key);
  }

  function AppPath(): (path: seq<string>)
    ensures |path| == 6
  {
    AppsPath() + [APP_ID]
  }

  /** The options that a tree sets; none if its blocks are not there, or the options are a block. */
  function OptionsOf(lower: Lower, trees: seq<Tree>): Option<string> {
    var apps := TreeTo(lower, trees, AppsPath());
    var app := TreeTo(lower, trees, AppPath());
    var options := TreeTo(lower, trees, OptionsPath());
    if apps == None || apps.value.Leaf? then None
    else if app == None || app.value.Leaf? || options == None then Some("")
    else if options.value.Leaf? then Some(options.value.text)
    else None
  }

  lemma PathsGoOn(lower: Lower, trees: seq<Tree>)
    ensures var apps := TreeTo(lower, trees, AppsPath());
      TreeTo(lower, trees, AppPath()) ==
        if apps.Some? && apps.value.Branch? then TreeTo(lower, apps.value.kids, [APP_ID]) else None
    ensures var app := TreeTo(lower, trees, AppPath());
      TreeTo(lower, trees, OptionsPath()) ==
        if app.Some? && app.value.Branch? then TreeTo(lower, app.value.kids, [OPTIONS]) else None
  {
    TreeToOn(lower, trees, AppsPath(), [APP_ID]);
    TreeToOn(lower, trees, AppPath(), [OPTIONS]);
    assert AppPath() + [OPTIONS] == OptionsPath();
  }

  /** The old options that the spot is found with are those of the tree. */
  lemma SpotOptions(lower: Lower, root: seq<Node>)
    ensures FindSpot(lower, root).Some? <==> OptionsOf(lower, Plain(root)).Some?
    ensures FindSpot(lower, root).Some? ==> OptionsOf(lower, Plain(root)) == Some(FindSpot(lower, root).value.1)
  {
    hide PathTo, IndexOf, TreeTo, AppsPath, AppPath, OptionsPath, Plain, PlainOne;
    PlainTo(lower, root, AppsPath());
    PathsGoOn(lower, Plain(root));
    var apps := PathTo(lower, root, AppsPath());
    if apps.Some? {
      PlainKey(apps.value);
      if apps.value.Block? {
        PlainTo(lower, apps.value.children, [APP_ID]);
        OneStep(lower, apps.value.children, APP_ID);
        var app := PathTo(lower, apps.value.children, [APP_ID]);
        if app.Some? {
          PlainKey(app.value);
          if app.value.Block? {
            PlainTo(lower, app.value.children, [OPTIONS]);
            OneStep(lower, app.value.children, OPTIONS);
            var options := PathTo(lower, app.value.children, [OPTIONS]);
            if options.Some? {
              PlainText(options.value);
            }
          }
        }
      }
    }
  }

  lemma PlainText(n: Node)
    ensures n.Value? ==> PlainOne(n) == Leaf(n.key, n.text)
    ensures n.Block? ==> PlainOne(n).Branch?
  {
  }

  /** Setting the options where the spot is sets them, unless the game's entry is a plain value. */
  lemma SetOptions(lower: Lower, root: seq<Node>, new': string)
    requires FindSpot(lower, root).Some?
    ensures var spot := FindSpot(lower, root).value.0;
      var app := TreeTo(lower, Plain(root), AppPath());
      OptionsOf(lower, SetAt(lower, Plain(root), SpotPath(spot), SpotChange(spot, new'))) ==
        Some(if app.Some? && app.value.Leaf? then "" else new')
  {
    hide PathTo, TreeTo, SetAt, AppsPath, OptionsPath, Plain, PlainOne, FindSpot;
    var spot := FindSpot(lower, root).value.0;
    var trees := Plain(root);
    var trees' := SetAt(lower, trees, SpotPath(spot), SpotChange(spot, new'));
    SpotKinds(lower, root);
    PathsGoOn(lower, trees);
    PathsGoOn(lower, trees');
    SetThenTo(lower, trees, SpotPath(spot), SpotChange(spot, new'));
    match spot
    case Over(_) =>
      PrefixStays(lower, trees', AppPath(), OPTIONS);
    case InApp(_) =>
      StepAppended(lower, TreeTo(lower, trees, AppPath()).value.kids, Leaf(OPTIONS, new'), OPTIONS);
    case InApps(_) =>
      StepAppended(lower, TreeTo(lower, trees, AppsPath()).value.kids, Branch(APP_ID, [Leaf(OPTIONS, new')]), APP_ID);
      StepAppended(lower, [], Leaf(OPTIONS, new'), OPTIONS);
      assert [] + [Leaf(OPTIONS, new')] == [Leaf(OPTIONS, new')];
      NothingThere(lower, OPTIONS);
  }

  lemma NothingThere(lower: Lower, key: string)
    ensures TreeTo(lower, [], [key]) == None
  {
  }

  lemma PrefixStays(lower: Lower, trees: seq<Tree>, path: seq<string>, key: string)
    requires path != []
    ensures TreeTo(lower, trees, path + [key]).Some? ==>
      TreeTo(lower, trees, path).Some? && TreeTo(lower, trees, path).value.Branch?
  {
    hide TreeTo;
    TreeToOn(lower, trees, path, [key]);
  }

  /** What is at the spot of each kind, and what is not. */
  lemma SpotKinds(lower: Lower, root: seq<Node>)
    requires FindSpot(lower, root).Some?
    ensures var spot := FindSpot(lower, root).value.0;
      var at := TreeTo(lower, Plain(root), SpotPath(spot));
      && at.Some? && (at.value.Leaf? <==> spot.Over?)
      && (spot.InApp? ==> TreeTo(lower, at.value.kids, [OPTIONS]) == None)
      && (spot.InApps? ==>
            var app := TreeTo(lower, at.value.kids, [APP_ID]); app == None || app.value.Leaf?)
  {
    hide PathTo, IndexOf, TreeTo, AppsPath, OptionsPath, Plain, PlainOne;
    var spot := FindSpot(lower, root).value.0;
    SpotIsThere(lower, root);
    PlainTo(lower, root, SpotPath(spot));
    PlainTo(lower, root, AppsPath());
    var apps := PathTo(lower, root, AppsPath()).value;
    PlainKey(PathTo(lower, root, SpotPath(spot)).value);
    OneStep(lower, apps.children, APP_ID);
    PlainTo(lower, apps.children, [APP_ID]);
    var app := PathTo(lower, apps.children, [APP_ID]);
    if app.Some? {
      PlainKey(app.value);
      PathOn(lower, root, AppsPath(), [APP_ID]);
      if app.value.Block? {
        OneStep(lower, app.value.children, OPTIONS);
        PlainTo(lower, app.value.children, [OPTIONS]);
      }
    }
  }

  /**
   Setting options and parsing what comes of it gives the options that were set,
   where the brace they go before is alone on its line: if and only if the
   game's entry is not a plain value, or the options are empty. Beside a plain
   value a block is put in, but the value is what is found again.
  */
  lemma OptionsReadBack(lower: Lower, text: string, new': string)
    requires Parse(text).Some? && FindSpot(lower, Parse(text).value.1).Some?
    ensures SpotOk(text, Parse(text).value.0, FindSpot(lower, Parse(text).value.1).value.0)
    ensures var (lexemes, root) := Parse(text).value;
      var spot := FindSpot(lower, root).value.0;
      var app := TreeTo(lower, Plain(root), AppPath());
      SpotAlone(text, lexemes, spot) ==>
        var text' := NewText(text, lexemes, spot, new');
        && Parse(text').Some? && FindSpot(lower, Parse(text').value.1).Some?
        && (FindSpot(lower, Parse(text').value.1).value.1 == new' <==> app == None || app.value.Branch? || new' == "")
  {
    hide Parse, FindSpot, Plain, SetAt, SpotPath, SpotChange, TreeTo, OptionsOf, NewText, SpotAlone, SpotOk;
    var (lexemes, root) := Parse(text).value;
    var spot := FindSpot(lower, root).value.0;
    EditedTree(lower, text, new');
    if SpotAlone(text, lexemes, spot) {
      var root' := Parse(NewText(text, lexemes, spot, new')).value.1;
      SetOptions(lower, root, new');
      SpotOptions(lower, root');
    }
  }
}
