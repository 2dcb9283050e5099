/** The execute loop of a driver, and the tree of commands and results with its observer. */
module ExecuteRun {
  import opened Text
  import opened Announcements
  import opened Sequences

  /** One carriage return at the end is dropped, and nothing else. */
  function StableCommand(command: string): (r: string)
    ensures command == r || command == r + "\r"
    ensures command == r <==> command == "" || command[|command| - 1] != '\r'
  {
    if command != "" && command[|command| - 1] == '\r' then command[..|command| - 1] else command
  }

  /** What an observer tells the driver. */
  datatype Emit = ChildAdded(node: Node) | ItemUpdated(node: Node, value: string)

  ghost function Told(e: Emit): Event {
    match e
    case ChildAdded(node) => Shown(node.id)
    case ItemUpdated(node, value) => Updated(node.id, value)
  }

  ghost function ToldAll(es: seq<Emit>): (r: seq<Event>)
    ensures |r| == |es|
  {
    seq(|es|, i requires 0 <= i < |es| => Told(es[i]))
  }

  lemma ToldConcat(a: seq<Emit>, b: seq<Emit>)
    ensures ToldAll(a + b) == ToldAll(a) + ToldAll(b)
  {
  }

  /** The value that stands in a result node: the most recent one under the owner of its text, its own
      elsewhere. */
  function ValueOf(mode: Mode, es: seq<Exec>, k: nat, j: nat): string
    requires k < |es| && j < |es[k].results|
  {
    var all := AllResults(es, es[k].text);
    if !mode.history && j == 0 && Owner(es, es[k].text, mode.limit) == k && all != [] then all[|all| - 1]
    else es[k].results[j]
  }

  lemma ValueAfterCommand(mode: Mode, es: seq<Exec>, text: string, k: nat, j: nat)
    requires k < |es| && j < |es[k].results|
    ensures ValueOf(mode, es + [Exec(text, [])], k, j) == ValueOf(mode, es, k, j)
  {
    var more := es + [Exec(text, [])];
    assert more[..|es|] == es;
    assert AllResults(es, es[k].text) + [] == AllResults(es, es[k].text);
    OwnerIff(es, k, mode.limit);
    OwnerIff(more, k, mode.limit);
  }

  /** A new result takes the place of the value shown for its text. */
  lemma ValueAfterResult(mode: Mode, es: seq<Exec>, value: string, k: nat, j: nat)
    requires es != []
    requires var after := WithResults(es, es[|es| - 1].results + [value]);
             k < |es| && j < |after[k].results|
    ensures var n := |es| - 1;
            var after := WithResults(es, es[n].results + [value]);
            ValueOf(mode, after, k, j) ==
            if k == n && j == |es[n].results| then value
            else if !mode.history && j == 0 && k == Owner(es, es[n].text, mode.limit) then value
            else ValueOf(mode, es, k, j)
  {
    hide AllResults, WithResults, Owner;
    AfterResult(mode, es, value, k);
    LastOf(AllResults(es, es[k].text), value);
  }

  lemma AfterResult(mode: Mode, es: seq<Exec>, value: string, k: nat)
    requires k < |es|
    ensures var n := |es| - 1;
            var after := WithResults(es, es[n].results + [value]);
            && after[k].text == es[k].text
            && after[k].results == (if k == n then es[n].results + [value] else es[k].results)
            && Owner(after, es[k].text, mode.limit) == Owner(es, es[k].text, mode.limit)
            && (es[k].text == es[n].text ==> AllResults(after, es[k].text) == AllResults(es, es[k].text) + [value])
            && (es[k].text != es[n].text ==>
                AllResults(after, es[k].text) == AllResults(es, es[k].text) && k != Owner(es, es[n].text, mode.limit))
  {
    var n := |es| - 1;
    var after := WithResults(es, es[n].results + [value]);
    AllResultsAfter(es, value, es[k].text);
    SameOwner(es, after, es[k].text, mode.limit);
    if es[k].text != es[n].text {
      OwnerText(es, es[n].text, mode.limit, k);
    }
  }

  lemma OwnerText(es: seq<Exec>, text: string, limit: nat, k: nat)
    requires k < |es| && es[k].text != text
    ensures Owner(es, text, limit) != k
  {
  }

  lemma {:induction false} SameOwner(a: seq<Exec>, b: seq<Exec>, text: string, limit: nat)
    requires |a| == |b| && forall i :: 0 <= i < |a| ==> a[i].text == b[i].text
    ensures Owner(a, text, limit) == Owner(b, text, limit)
    decreases |a|
  {
    if a != [] && limit > 0 {
      SameOwner(a[1..], b[1..], text, limit - 1);
    }
  }

  lemma AllResultsAfter(es: seq<Exec>, value: string, text: string)
    requires es != []
    ensures var after := WithResults(es, es[|es| - 1].results + [value]);
            AllResults(after, text) ==
            if es[|es| - 1].text == text then AllResults(es, text) + [value] else AllResults(es, text)
  {
    var n := |es| - 1;
    var rs := es[n].results;
    var after := WithResults(es, rs + [value]);
    AllResultsNext(after, text);
    assert (rs + [value])[..|rs|] == rs;
    assert WithResults(after, rs) == es;
    assert AllResults(es, text) + [] == AllResults(es, text);
  }

  // ----- the tree -----

  /** FastoObject */
  class Node {
    ghost const id: Id
    const parent: Node?
    const isCommand: bool   // the type of its value
    const input: string     // InputCommand()
    var value: string
    var children: seq<Node>
    var observer: Locker?

    constructor (parent: Node?, isCommand: bool, input: string, value: string, ghost id: Id)
      ensures this.parent == parent && this.isCommand == isCommand && this.input == input && this.id == id
      ensures this.value == value && children == [] && observer == null
    {
      this.parent, this.isCommand, this.input, this.id := parent, isCommand, input, id;
      this.value, this.children, this.observer := value, [], null;
    }

    /** A null child is ignored. The child learns its observer only after it was announced. */
    method AddChildren(child: Node?)
      requires child != null ==> child.parent == this && (observer != null ==> observer.Knows(child))
      modifies `children
      modifies (if child == null then {} else {child})`observer
      modifies (if observer == null then {} else {observer})`emitted
      modifies (if observer == null then {} else {observer})`watched
      modifies (if observer == null || child == null then {} else observer.Targets(child))`value
      ensures observer == old(observer)
      ensures child == null ==> unchanged(this) && (observer != null ==> unchanged(observer))
      ensures child != null ==> children == old(children) + [child]
      ensures child != null ==> child.observer == if observer != null then observer else old(child.observer)
      ensures child != null && observer != null ==>
                && observer.emitted == old(observer.emitted) + old(observer.EmitsFor(child))
                && observer.watched == old(observer.WatchedWith(child))
                && (old(observer.Target(child)) != null ==> old(observer.Target(child)).value == old(child.value))
    {
      if child == null {
        return;
      }
      children := children + [child];
      if observer != null {
        observer.ChildrenAdded(child);
        child.observer := observer;
      }
    }

    method SetValue(val: string)
      modifies `value, (if observer == null then {} else {observer})`emitted
      ensures value == val
      ensures observer != null ==> observer.emitted == old(observer.emitted) + [ItemUpdated(this, val)]
    {
      value := val;
      if observer != null {
        observer.Updated(this, val);
      }
    }
  }

  /** The first watched command with this text. */
  function Find(watched: seq<Node>, input: string): (w: Node?)
    ensures w != null ==> w in watched && w.input == input
  {
    if watched == [] then null else if watched[0].input == input then watched[0] else Find(watched[1..], input)
  }

  function Min(a: nat, b: nat): nat { if a <= b then a else b }

  lemma {:induction false} FindFirst(watched: seq<Node>, input: string, o: nat)
    requires o < |watched| && watched[o].input == input && forall i :: 0 <= i < o ==> watched[i].input != input
    ensures Find(watched, input) == watched[o]
    decreases |watched|
  {
    if o > 0 {
      FindFirst(watched[1..], input, o - 1);
    }
  }

  lemma {:induction false} FindNone(watched: seq<Node>, input: string)
    requires forall i :: 0 <= i < |watched| ==> watched[i].input != input
    ensures Find(watched, input) == null
    decreases |watched|
  {
    if watched != [] {
      FindNone(watched[1..], input);
    }
  }

  lemma FindOwner(nodes: seq<Node>, es: seq<Exec>, text: string, limit: nat)
    requires |nodes| == |es| && forall i :: 0 <= i < |es| ==> nodes[i].input == es[i].text
    ensures var o := Owner(es, text, limit);
            Find(nodes[..Min(limit, |nodes|)], text) == if o < |es| then nodes[o] else null
  {
    var o, watched := Owner(es, text, limit), nodes[..Min(limit, |nodes|)];
    hide Owner, Find;
    if o < |es| {
      FindFirst(watched, text, o);
    } else {
      FindNone(watched, text);
    }
  }

  /** RootLocker with history, FirstChildUpdateRootLocker without. */
  class Locker {
    const history: bool
    const limit: nat   // the number of commands of the run
    var root: Node
    var watched: seq<Node>
    var emitted: seq<Emit>
    ghost var es: seq<Exec>
    ghost var repr: set<Node>

    constructor (text: string, history: bool, limit: nat)
      ensures Valid() && this.history == history && this.limit == limit && es == [] && emitted == []
      ensures fresh(root) && root.parent == null && repr == {}
    {
      this.history, this.limit, this.watched, this.emitted := history, limit, [], [];
      var node := new Node(null, false, "", text, Root);
      this.root, this.es, this.repr := node, [], {};
      new;
      node.observer := this;
    }

    ghost predicate IsResult(d: Node, c: Node, k: nat, j: nat)
      reads d`observer
    {
      d.id == Result(k, j) && !d.isCommand && d.parent == c && d.observer == this
    }

    ghost predicate IsCommandNode(c: Node, k: nat, e: Exec)
      reads `root, c`children, c`observer, c.children`observer
    {
      && c.id == Command(k) && c.isCommand && c.parent == root && c.observer == this && c.input == e.text
      && |c.children| == |e.results|
      && forall j :: 0 <= j < |c.children| ==> IsResult(c.children[j], c, k, j)
    }

    ghost predicate Owns(c: Node)
      reads `repr, c`children
    {
      forall d :: d in c.children ==> d in repr
    }

    ghost predicate Holds(cs: seq<Node>, es: seq<Exec>)
      requires |cs| == |es|
      reads `root, `repr, repr
    {
      forall k :: 0 <= k < |es| ==> cs[k] in repr && Owns(cs[k]) && IsCommandNode(cs[k], k, es[k])
    }

    /** The tree is what was executed. */
    ghost predicate Shape()
      reads this, root, repr
    {
      && root.id == Root && !root.isCommand && root.observer == this && root !in repr
      && |root.children| == |es|
      && Holds(root.children, es)
      && (if history then watched == [] else watched == root.children[..Min(limit, |es|)])
    }

    ghost function TheMode(): Mode { Mode(history, limit) }

    ghost predicate Values()
      requires Shape()
      reads this, root, repr
    {
      forall k, j :: 0 <= k < |es| && 0 <= j < |es[k].results| ==>
        root.children[k].children[j].value == ValueOf(TheMode(), es, k, j)
    }

    /** The tree holds the results, the most recent ones on show, and the announcements are those of
        the run. */
    ghost predicate Valid()
      reads this, root, repr
    {
      Shape() && Values() && ToldAll(emitted) == Events(TheMode(), es)
    }

    /** The node whose value a new child replaces, or the child itself when it is to be announced. */
    ghost function Target(child: Node): Node?
      reads `watched, watched
    {
      if history || child.isCommand || child.parent == null || !child.parent.isCommand then null
      else
        var w := Find(watched, child.parent.input);
        if w == null then null
        else if w.children != [] then w.children[0]
        else if w == child.parent then child
        else null
    }

    ghost function Targets(child: Node): set<Node>
      reads `watched, watched
    {
      var t := Target(child);
      if t == null then {} else {t}
    }

    ghost predicate Knows(child: Node)
      reads `watched, watched, Targets(child)
    {
      var t := Target(child);
      t != null && t != child ==> t.observer == this
    }

    ghost function EmitsFor(child: Node): seq<Emit>
      reads `watched, watched, child
    {
      var t := Target(child);
      if history || t == child then [ChildAdded(child)]
      else if child.isCommand then (if |watched| == limit then [] else [ChildAdded(child)])
      else if t == null then []
      else [ItemUpdated(t, child.value)]
    }

    ghost function WatchedWith(child: Node): seq<Node>
      reads `watched
    {
      if !history && child.isCommand && |watched| != limit then watched + [child] else watched
    }

    method Updated(item: Node, val: string)
      modifies `emitted
      ensures emitted == old(emitted) + [ItemUpdated(item, val)]
    {
      emitted := emitted + [ItemUpdated(item, val)];
    }

    method ChildrenAdded(child: Node)
      requires child.parent != null && child in child.parent.children && Knows(child)
      modifies `watched, `emitted, Targets(child)`value
      ensures emitted == old(emitted) + old(EmitsFor(child))
      ensures watched == old(WatchedWith(child))
      ensures old(Target(child)) != null ==> old(Target(child)).value == old(child.value)
    {
      if history {
        emitted := emitted + [ChildAdded(child)];
        return;
      }
      var val := child.value;
      if child.isCommand {
        if |watched| == limit {
          return;
        }
        watched := watched + [child];
        emitted := emitted + [ChildAdded(child)];
        return;
      }
      var watchedChild := FindCmdChildNode(child);
      if watchedChild == null {
        return;
      }
      if watchedChild == child {
        emitted := emitted + [ChildAdded(child)];
        return;
      }
      watchedChild.SetValue(val);
    }

    method FindCmdChildNode(child: Node) returns (node: Node?)
      requires !history && !child.isCommand && child.parent != null && child in child.parent.children
      ensures node == Target(child)
    {
      var parent := child.parent;
      if !parent.isCommand {
        return null;
      }
      var watchedCmd := FindWatchedCmd(parent);
      if watchedCmd == null {
        return null;
      }
      var childs := watchedCmd.children;
      if childs == [] {
        return null;
      }
      return childs[0];
    }

    method FindWatchedCmd(cmd: Node) returns (w: Node?)
      ensures w == Find(watched, cmd.input)
    {
      var i := 0;
      while i < |watched|
        invariant i <= |watched| && Find(watched, cmd.input) == Find(watched[i..], cmd.input)
      {
        if watched[i].input == cmd.input {
          return watched[i];
        }
        assert watched[i..][1..] == watched[i + 1..];
        i := i + 1;
      }
      return null;
    }
  }

  lemma CommandTold(mode: Mode, es: seq<Exec>, text: string, emitted: seq<Emit>, node: Node)
    requires ToldAll(emitted) == Events(mode, es) && node.id == Command(|es|)
    ensures ToldAll(emitted + if mode.history || |es| < mode.limit then [ChildAdded(node)] else [])
         == Events(mode, es + [Exec(text, [])])
  {
    CommandAdded(mode, es, text);
    ToldConcat(emitted, if mode.history || |es| < mode.limit then [ChildAdded(node)] else []);
    hide Events;
    assert ToldAll([ChildAdded(node)]) == [Shown(Command(|es|))];
  }

  lemma NodeFacts(lock: Locker, c: Node, k: nat, e: Exec)
    requires lock.IsCommandNode(c, k, e)
    ensures c.id == Command(k) && c.isCommand && c.parent == lock.root && c.observer == lock && c.input == e.text
    ensures |c.children| == |e.results| && forall j :: 0 <= j < |c.children| ==> lock.IsResult(c.children[j], c, k, j)
  {
  }

  /** A new command node at the end of the root's children, and its announcement. */
  method PushCommand(lock: Locker, text: string) returns (cmd: Node)
    requires lock.Valid()
    modifies lock`emitted, lock`watched, lock.root`children
    ensures fresh(cmd) && lock.root.children == old(lock.root.children) + [cmd] && cmd.children == []
    ensures lock.IsCommandNode(cmd, |lock.es|, Exec(text, []))
    ensures lock.emitted == old(lock.emitted) + if lock.history || |lock.es| < lock.limit then [ChildAdded(cmd)] else []
    ensures if lock.history then lock.watched == [] else
              lock.watched == lock.root.children[..Min(lock.limit, |lock.root.children|)]
  {
    hide Events, Owner, ValueOf, AllResults, ToldAll, Find, Locker.IsCommandNode;
    cmd := new Node(lock.root, true, text, "", Command(|lock.es|));
    lock.root.AddChildren(cmd);
    FreshCommand(lock, cmd, |lock.es|, text);
  }

  lemma FreshCommand(lock: Locker, c: Node, k: nat, text: string)
    requires c.id == Command(k) && c.isCommand && c.parent == lock.root && c.observer == lock && c.input == text
    requires c.children == []
    ensures lock.IsCommandNode(c, k, Exec(text, []))
  {
  }

  /** A new command node, in the tree. */
  method AppendCommand(lock: Locker, text: string) returns (cmd: Node)
    requires lock.Valid()
    modifies lock`emitted, lock`watched, lock`es, lock`repr, lock.root`children
    ensures lock.Shape() && ToldAll(lock.emitted) == Events(lock.TheMode(), lock.es)
    ensures fresh(cmd) && lock.root.children == old(lock.root.children) + [cmd] && lock.repr == old(lock.repr) + {cmd}
    ensures lock.es == old(lock.es) + [Exec(text, [])]
  {
    hide Events, OnCommand, Owner, ValueOf, AllResults, ToldAll, Locker.IsCommandNode;
    ghost var es := lock.es;
    cmd := PushCommand(lock, text);
    NodeFacts(lock, cmd, |es|, Exec(text, []));
    CommandTold(lock.TheMode(), es, text, old(lock.emitted), cmd);
    lock.es := es + [Exec(text, [])];
    lock.repr := lock.repr + {cmd};
  }

  /** CreateCommand: a command node under the root, unless nothing is left of the text. */
  method CreateCommand(lock: Locker, parent: Node?, input: string) returns (cmd: Node?)
    requires lock.Valid() && (parent == null || parent == lock.root)
    modifies lock`emitted, lock`watched, lock`es, lock`repr, lock.root`children
    ensures lock.Valid()
    ensures parent == null || StableCommand(input) == "" ==>
              cmd == null && lock.es == old(lock.es) && lock.repr == old(lock.repr)
    ensures parent != null && StableCommand(input) != "" ==>
              && lock.es == old(lock.es) + [Exec(StableCommand(input), [])]
              && cmd == lock.root.children[|lock.es| - 1] && fresh(cmd) && lock.repr == old(lock.repr) + {cmd}
  {
    if parent == null {
      return null;
    }
    var stableInput := StableCommand(input);
    if stableInput == "" {
      return null;
    }
    hide Events, Owner, ValueOf, AllResults, ToldAll, StableCommand;
    ghost var es := lock.es;
    cmd := AppendCommand(lock, stableInput);
    forall k, j | 0 <= k < |lock.es| && 0 <= j < |lock.es[k].results|
      ensures lock.root.children[k].children[j].value == ValueOf(lock.TheMode(), lock.es, k, j)
    {
      ValueAfterCommand(lock.TheMode(), es, stableInput, k, j);
    }
  }

  lemma ResultTold(mode: Mode, es: seq<Exec>, value: string, emitted: seq<Emit>, now: seq<Emit>)
    requires es != [] && ToldAll(emitted) == Events(mode, es) && ToldAll(now) == OnResult(mode, es, value)
    ensures ToldAll(emitted + now) == Events(mode, WithResults(es, es[|es| - 1].results + [value]))
  {
    ResultAdded(mode, es, value);
    ToldConcat(emitted, now);
  }

  ghost predicate IsNextResult(lock: Locker, child: Node)
    requires lock.Shape() && lock.es != []
    reads lock, lock.root, lock.repr
  {
    var n := |lock.es| - 1;
    && child.parent == lock.root.children[n] && !child.isCommand && child !in lock.repr
    && child.id == Result(n, |lock.es[n].results|)
  }

  lemma TargetOfResult(lock: Locker, child: Node)
    requires lock.Shape() && lock.es != [] && IsNextResult(lock, child)
    ensures var es := lock.es;
            var n := |es| - 1;
            var o := Owner(es, es[n].text, lock.limit);
            && lock.Target(child) ==
               (if lock.history || o >= |es| then null
                else if es[o].results != [] then lock.root.children[o].children[0]
                else if o == n then child
                else null)
            && (o < |es| && es[o].results != [] ==>
                  lock.root.children[o].children != [] && lock.root.children[o].children[0].id == Result(o, 0)
                  && lock.root.children[o].children[0].observer == lock)
  {
    WatchedOwner(lock);
    hide Owner, Find, Locker.IsCommandNode;
  }

  /** The watched command under which the results of the last command are shown. */
  lemma WatchedOwner(lock: Locker)
    requires lock.Shape() && lock.es != []
    ensures var es, kids := lock.es, lock.root.children;
            var n := |es| - 1;
            var o := Owner(es, es[n].text, lock.limit);
            && kids[n].input == es[n].text && kids[n].isCommand
            && (!lock.history ==> Find(lock.watched, es[n].text) == if o < |es| then kids[o] else null)
            && (o < |es| ==> |kids[o].children| == |es[o].results| && (o != n ==> kids[o] != kids[n]))
            && (o < |es| && es[o].results != [] ==>
                  kids[o].children[0].id == Result(o, 0) && kids[o].children[0].observer == lock)
  {
    var es, kids := lock.es, lock.root.children;
    var n := |es| - 1;
    var o := Owner(es, es[n].text, lock.limit);
    hide Owner, Find, Locker.IsCommandNode;
    forall i | 0 <= i < |es| ensures kids[i].input == es[i].text && kids[i].id == Command(i) {
      NodeFacts(lock, kids[i], i, es[i]);
    }
    FindOwner(kids, es, es[n].text, lock.limit);
    NodeFacts(lock, kids[n], n, es[n]);
    if o < |es| {
      NodeFacts(lock, kids[o], o, es[o]);
    }
  }

  /** Where a new result of the last command goes, and what is told about it. */
  lemma NextResult(lock: Locker, child: Node)
    requires lock.Shape() && lock.es != [] && IsNextResult(lock, child)
    ensures lock.Knows(child) && lock.WatchedWith(child) == lock.watched
    ensures ToldAll(lock.EmitsFor(child)) == OnResult(lock.TheMode(), lock.es, child.value)
  {
    hide Owner, Locker.Target;
    TargetOfResult(lock, child);
  }

  lemma GrownNode(lock: Locker, c: Node, k: nat, e: Exec, before: seq<Node>, child: Node, value: string)
    requires c.id == Command(k) && c.isCommand && c.parent == lock.root && c.observer == lock && c.input == e.text
    requires |before| == |e.results| && forall j :: 0 <= j < |before| ==> lock.IsResult(before[j], c, k, j)
    requires c.children == before + [child] && lock.IsResult(child, c, k, |before|)
    ensures lock.IsCommandNode(c, k, e.(results := e.results + [value]))
  {
  }

  /** The child node of a result of the last command, and what its announcement changes. */
  method PushResult(lock: Locker, cmd: Node, value: string) returns (child: Node, ghost t: Node?, ghost now: seq<Emit>)
    requires lock.Valid() && lock.es != [] && cmd == lock.root.children[|lock.es| - 1]
    modifies cmd`children, lock`emitted, lock`watched, lock.repr`value
    ensures cmd.children == old(cmd.children) + [child] && fresh(child) && child.value == value
    ensures lock.IsResult(child, cmd, |lock.es| - 1, |old(cmd.children)|)
    ensures lock.watched == old(lock.watched) && lock.emitted == old(lock.emitted) + now
    ensures ToldAll(now) == OnResult(lock.TheMode(), lock.es, value)
    ensures t != null ==> t.value == value
    ensures forall d :: d in lock.repr && d != t ==> d.value == old(d.value)
    ensures var es := lock.es;
            var o := Owner(es, es[|es| - 1].text, lock.limit);
            if lock.history || o >= |es| then t == null
            else if es[o].results != [] then t == old(lock.root.children[o].children[0])
            else t == null || t == child
  {
    hide Events, OnResult, Owner, ValueOf, AllResults, ToldAll, Find;
    hide Locker.Knows, Locker.EmitsFor, Locker.WatchedWith, Locker.Target;
    ghost var n := |lock.es| - 1;
    NodeFacts(lock, cmd, n, lock.es[n]);
    child := new Node(cmd, false, "", value, Result(n, |lock.es[n].results|));
    TargetOfResult(lock, child);
    NextResult(lock, child);
    now := lock.EmitsFor(child);
    t := lock.Target(child);
    TargetIsOld(lock, child);
    cmd.AddChildren(child);
  }

  lemma TargetIsOld(lock: Locker, child: Node)
    requires lock.Shape() && lock.es != []
    requires var es := lock.es;
             var o := Owner(es, es[|es| - 1].text, lock.limit);
             lock.Target(child) ==
               (if lock.history || o >= |es| then null
                else if es[o].results != [] then lock.root.children[o].children[0]
                else if o == |es| - 1 then child
                else null)
    ensures lock.Target(child) == null || lock.Target(child) == child || lock.Target(child) in lock.repr
  {
    hide Owner, Locker.Target;
  }

  /** A new result node under the running command, and the value it puts on show. */
  method AttachNode(lock: Locker, cmd: Node, value: string) returns (ghost t: Node?)
    requires lock.Valid() && lock.es != [] && cmd == lock.root.children[|lock.es| - 1]
    modifies cmd`children, lock`emitted, lock`watched, lock`es, lock`repr, lock.repr`value
    ensures lock.Shape() && lock.root.children == old(lock.root.children)
    ensures lock.es == WithResults(old(lock.es), old(lock.es)[|old(lock.es)| - 1].results + [value])
    ensures lock.repr > old(lock.repr) && fresh(lock.repr - old(lock.repr))
    ensures ToldAll(lock.emitted) == Events(lock.TheMode(), lock.es)
    ensures |cmd.children| == |old(cmd.children)| + 1 && cmd.children[|old(cmd.children)|].value == value
    ensures cmd.children[..|old(cmd.children)|] == old(cmd.children)
    ensures t != null ==> t.value == value
    ensures forall d :: d in old(lock.repr) && d != t ==> d.value == old(d.value)
    ensures var es := old(lock.es);
            var o := Owner(es, es[|es| - 1].text, lock.limit);
            if lock.history || o >= |es| then t == null
            else if es[o].results != [] then t == old(lock.root.children[o].children[0])
            else t == null || t !in old(lock.repr)
  {
    hide Events, OnResult, Owner, ValueOf, AllResults, ToldAll, Find, Locker.IsCommandNode;
    ghost var es, n := lock.es, |lock.es| - 1;
    ghost var before := cmd.children;
    forall k | 0 <= k < |es| ensures lock.root.children[k].id == Command(k) {
      NodeFacts(lock, lock.root.children[k], k, es[k]);
    }
    NodeFacts(lock, cmd, n, es[n]);
    var child;
    ghost var now;
    child, t, now := PushResult(lock, cmd, value);
    ResultTold(lock.TheMode(), es, value, old(lock.emitted), now);
    GrownNode(lock, cmd, n, es[n], before, child, value);
    lock.es := WithResults(es, es[n].results + [value]);
    lock.repr := lock.repr + {child};
  }

  /** A command handler attaches a result to the command that runs. */
  method Attach(lock: Locker, cmd: Node, value: string)
    requires lock.Valid() && lock.es != [] && cmd == lock.root.children[|lock.es| - 1]
    modifies cmd`children, lock`emitted, lock`watched, lock`es, lock`repr, lock.repr`value
    ensures lock.Valid() && lock.root.children == old(lock.root.children)
    ensures lock.es == WithResults(old(lock.es), old(lock.es)[|old(lock.es)| - 1].results + [value])
    ensures lock.repr > old(lock.repr) && fresh(lock.repr - old(lock.repr))
  {
    hide Events, Owner, ValueOf, AllResults, ToldAll;
    ghost var es, n, m := lock.es, |lock.es| - 1, |cmd.children|;
    ghost var t := AttachNode(lock, cmd, value);
    forall k, j | 0 <= k < |lock.es| && 0 <= j < |lock.es[k].results|
      ensures lock.root.children[k].children[j].value == ValueOf(lock.TheMode(), lock.es, k, j)
    {
      ghost var d := lock.root.children[k].children[j];
      assert lock.IsResult(d, lock.root.children[k], k, j);
      ValueAfterResult(lock.TheMode(), es, value, k, j);
      if k == n && j == m {
        assert d == cmd.children[m];
      } else {
        assert k == n ==> d == cmd.children[..m][j];
        assert d == old(lock.root.children[k].children[j]);
        assert d in old(lock.repr);
      }
    }
  }

  // ----- the execute loop -----

  /** What a command does when it is executed: the results it attaches, and whether it fails. */
  datatype Outcome = Outcome(results: seq<string>, failed: bool)

  datatype Error = EmptyLine | InvalidLine | Interrupted | ExecutionFailed

  /** What the driver sends to the requester. */
  datatype Sent = Progress(value: int) | Response(error: Option<Error>) | RootCreated | RootCompleted

  /** The handler of the running command attaches its results one by one. */
  method AttachAll(lock: Locker, cmd: Node, results: seq<string>)
    requires lock.Valid() && lock.es != [] && cmd == lock.root.children[|lock.es| - 1]
    requires lock.es[|lock.es| - 1].results == []
    modifies cmd`children, lock`emitted, lock`watched, lock`es, lock`repr, lock.repr`value
    ensures lock.Valid() && lock.es == WithResults(old(lock.es), results)
    ensures lock.repr >= old(lock.repr) && fresh(lock.repr - old(lock.repr))
    ensures lock.root.children == old(lock.root.children)
  {
    hide *;
    var j := 0;
    ghost var es := lock.es;
    NoResults(es, results);
    while j < |results|
      invariant j <= |results| && lock.Valid() && lock.es == WithResults(es, results[..j])
      invariant lock.repr >= old(lock.repr) && fresh(lock.repr - old(lock.repr))
      invariant lock.root.children == old(lock.root.children)
    {
      MoreResults(es, results, j);
      Attach(lock, cmd, results[j]);
      j := j + 1;
    }
    assert results[..j] == results;
  }

  lemma NoResults(es: seq<Exec>, results: seq<string>)
    requires es != [] && es[|es| - 1].results == []
    ensures WithResults(es, results[..0]) == es
  {
  }

  lemma MoreResults(es: seq<Exec>, results: seq<string>, j: nat)
    requires es != [] && j < |results|
    ensures var before := WithResults(es, results[..j]);
            before[|es| - 1].results == results[..j]
            && WithResults(before, results[..j] + [results[j]]) == WithResults(es, results[..j + 1])
  {
    assert results[..j] + [results[j]] == results[..j + 1];
  }

  /** CreateCommandFast: a command outside the tree, which nobody observes. */
  method CreateCommandFast(input: string) returns (cmd: Node?)
    ensures cmd == null <==> StableCommand(input) == ""
    ensures cmd != null ==>
              fresh(cmd) && cmd.input == StableCommand(input) && cmd.observer == null && cmd.children == []
  {
    var stableInput := StableCommand(input);
    if stableInput == "" {
      return null;
    }
    cmd := new Node(null, true, stableInput, "", Root);
  }

  method AttachAllFast(cmd: Node, results: seq<string>)
    requires cmd.observer == null
    modifies cmd`children
    ensures |cmd.children| == |old(cmd.children)| + |results|
  {
    var j := 0;
    while j < |results|
      invariant j <= |results| && cmd.observer == null && |cmd.children| == |old(cmd.children)| + j
      modifies cmd`children
    {
      var child := new Node(cmd, false, "", results[j], Root);
      cmd.AddChildren(child);
      j := j + 1;
    }
  }

  /** One round of the inner loop: the command is created and executed. A command of which nothing is
      left cannot be created, and its execution fails. */
  method Attempt(lock: Locker, command: string, silence: bool, outcome: Outcome) returns (failed: bool)
    requires lock.Valid()
    modifies lock`emitted, lock`watched, lock`es, lock`repr, lock.root`children, lock.repr`value
    ensures lock.Valid() && failed == (StableCommand(command) == "" || outcome.failed)
    ensures lock.es == old(lock.es) + if silence || StableCommand(command) == "" then [] else
                                        [Exec(StableCommand(command), outcome.results)]
    ensures lock.repr >= old(lock.repr) && fresh(lock.repr - old(lock.repr))
  {
    hide *;
    var cmd: Node?;
    ghost var es := lock.es;
    assert es + [] == es;
    if silence {
      cmd := CreateCommandFast(command);
      if cmd == null {
        return true;
      }
      AttachAllFast(cmd, outcome.results);
    } else {
      cmd := CreateCommand(lock, lock.root, command);
      if cmd == null {
        return true;
      }
      WithLast(es, StableCommand(command), outcome.results);
      AttachAll(lock, cmd, outcome.results);
    }
    failed := outcome.failed;
  }

  lemma WithLast(es: seq<Exec>, text: string, results: seq<string>)
    ensures WithResults(es + [Exec(text, [])], results) == es + [Exec(text, results)]
  {
  }

  // ----- progress -----

  /** The progress messages of k attempts. */
  function Steps(step: real, k: nat): (r: seq<Sent>)
    ensures |r| == k
  {
    seq(k, q requires 0 <= q < k => Progress(ProgressAt(step, q + 1).Floor))
  }

  function ProgressAt(step: real, k: nat): real { step * k as real }

  lemma NextStep(before: seq<Sent>, step: real, k: nat)
    ensures ProgressAt(step, k) + step == ProgressAt(step, k + 1)
    ensures before + Steps(step, k + 1) == before + Steps(step, k) + [Progress(ProgressAt(step, k + 1).Floor)]
  {
    Distribute(step, k as real, 1.0);
    assert Steps(step, k + 1) == Steps(step, k) + [Progress(ProgressAt(step, k + 1).Floor)];
  }

  function StepOf(total: nat): real
    requires total > 0
  {
    99.0 / total as real
  }

  /** Progress never goes back, stays at most 99 during the run, and reaches it with the last attempt. */
  lemma StepsRise(total: nat, k: nat, q: nat)
    requires total > 0 && q < k <= total
    ensures 0 <= Steps(StepOf(total), k)[q].value <= 99
    ensures q + 1 < k ==> Steps(StepOf(total), k)[q].value <= Steps(StepOf(total), k)[q + 1].value
    ensures q + 1 == total ==> Steps(StepOf(total), k)[q].value == 99
  {
    var step := StepOf(total);
    WholeRun(total);
    hide StepOf;
    Rising(step, q + 1, total);
    Rising(step, q + 1, q + 2);
    Rising(step, 0, q + 1);
  }

  lemma WholeRun(total: nat)
    requires total > 0
    ensures StepOf(total) >= 0.0 && StepOf(total) * total as real == 99.0
  {
  }

  lemma Distribute(x: real, y: real, z: real)
    ensures x * (y + z) == x * y + x * z
    ensures x >= 0.0 && z >= 0.0 ==> x * z >= 0.0
  {
  }

  lemma Rising(step: real, a: nat, b: nat)
    requires step >= 0.0 && a <= b
    ensures step * a as real <= step * b as real
    ensures (step * a as real).Floor <= (step * b as real).Floor
    ensures step * 0 as real == 0.0
  {
    var gap := (b - a) as real;
    assert gap == b as real - a as real;
    Distribute(step, a as real, gap);
  }

  // ----- the run -----

  /** A request to execute: the line and the tokens into which it splits at newlines. */
  datatype Request = Request(line: string, commands: seq<string>, repeat: nat, history: bool, silence: bool)

  /** The world during a run: what the k-th execution does, and whether the run was interrupted by then. */
  datatype World = World(outcome: nat -> Outcome, interrupted: nat -> bool)

  function Total(req: Request): (total: nat)
    ensures req.commands != [] ==> total > 0
  {
    Multiple(req.repeat + 1, |req.commands|);
    |req.commands| * (req.repeat + 1)
  }

  function TextAt(req: Request, k: nat): string
    requires req.commands != []
  {
    StableCommand(req.commands[k % |req.commands|])
  }

  predicate Fails(req: Request, w: World, k: nat)
    requires req.commands != []
  {
    TextAt(req, k) == "" || w.outcome(k).failed
  }

  /** What is executed in the first k attempts of which at most the last one fails. */
  function Executed(req: Request, w: World, k: nat): seq<Exec>
    requires req.commands != []
  {
    if k == 0 then []
    else
      var text := TextAt(req, k - 1);
      Executed(req, w, k - 1) + if text == "" then [] else [Exec(text, w.outcome(k - 1).results)]
  }

  lemma ExecutedNext(req: Request, w: World, k: nat)
    requires req.commands != []
    ensures Executed(req, w, 0) == []
    ensures Executed(req, w, k + 1) ==
            Executed(req, w, k) + if TextAt(req, k) == "" then [] else [Exec(TextAt(req, k), w.outcome(k).results)]
  {
  }

  /** The run makes `tried` attempts: it stops at the first failure or interruption and nowhere else. */
  ghost predicate StopsAt(req: Request, w: World, tried: nat, error: Option<Error>)
    requires req.commands != []
  {
    && tried <= Total(req)
    && (forall q :: 0 <= q < tried ==> !w.interrupted(q))
    && (forall q :: 0 <= q < tried - 1 ==> !Fails(req, w, q))
    && (if tried > 0 && Fails(req, w, tried - 1) then error == Some(ExecutionFailed)
        else if tried < Total(req) then error == Some(Interrupted) && w.interrupted(tried)
        else error == None)
  }

  /** The request and the world determine how far a run gets and how it ends. */
  lemma OneOutcome(req: Request, w: World, tried: nat, error: Option<Error>, tried': nat, error': Option<Error>)
    requires req.commands != [] && StopsAt(req, w, tried, error) && StopsAt(req, w, tried', error')
    ensures tried == tried' && error == error'
  {
    hide Total, Fails;
    NotEarlier(req, w, tried, error, tried', error');
    NotEarlier(req, w, tried', error', tried, error);
  }

  lemma NotEarlier(req: Request, w: World, tried: nat, error: Option<Error>, tried': nat, error': Option<Error>)
    requires req.commands != [] && StopsAt(req, w, tried, error) && StopsAt(req, w, tried', error')
    ensures tried >= tried'
  {
    hide Total, Fails;
  }

  /** A run without failures and interruptions makes every attempt and ends without an error; a run
      that ends without one made every attempt. */
  lemma CompleteRun(req: Request, w: World, tried: nat, error: Option<Error>)
    requires req.commands != [] && StopsAt(req, w, tried, error)
    ensures error == None <==> forall q :: 0 <= q < Total(req) ==> !w.interrupted(q) && !Fails(req, w, q)
    ensures error == None ==> tried == Total(req)
  {
    hide Total, Fails;
  }

  class Driver {
    var sent: seq<Sent>

    method Send(s: Sent)
      modifies `sent
      ensures sent == old(sent) + [s]
    {
      sent := sent + [s];
    }

    /** HandleExecuteEvent */
    method HandleExecute(req: Request, w: World)
      returns (lock: Locker?, error: Option<Error>, tried: nat)
      modifies `sent
      ensures req.line == "" || req.commands == [] ==>
                && error == Some(if req.line == "" then EmptyLine else InvalidLine)
                && sent == old(sent) + [Progress(0), Response(error), Progress(100)]
      ensures req.line != "" && req.commands != [] ==>
                && StopsAt(req, w, tried, error)
                && sent == old(sent) + [Progress(0)] + (if req.silence then [] else [RootCreated])
                           + Steps(StepOf(Total(req)), tried)
                           + [Response(error), Progress(100)] + (if req.silence then [] else [RootCompleted])
                && lock != null && lock.Valid() && lock.history == req.history && lock.limit == |req.commands|
                && lock.es == (if req.silence then [] else Executed(req, w, tried))
    {
      hide StopsAt, Executed, Steps, StepOf, Total, Locker.Valid;
      lock, tried := null, 0;
      Send(Progress(0));
      if req.line == "" {
        error := Some(EmptyLine);
        Send(Response(error));
        Send(Progress(100));
        return;
      }
      if req.commands == [] {
        error := Some(InvalidLine);
        Send(Response(error));
        Send(Progress(100));
        return;
      }
      lock := new Locker(req.line, req.history, |req.commands|);
      if !req.silence {
        Send(RootCreated);
      }
      error, tried := Loop(lock, req, w);
      Send(Response(error));
      Send(Progress(100));
      if !req.silence {
        Send(RootCompleted);
      }
    }

    /** The body of the inner loop after the poll: progress, then the command. */
    method Try(lock: Locker, req: Request, w: World, i: nat, tried: nat, curProgress: real, step: real)
      returns (nowProgress: real, failed: bool)
      requires i < |req.commands| && i == tried % |req.commands| && lock.Valid()
      requires curProgress == ProgressAt(step, tried)
      requires lock.es == (if req.silence then [] else Executed(req, w, tried))
      modifies `sent, lock`emitted, lock`watched, lock`es, lock`repr, lock.root`children, lock.repr`value
      ensures lock.Valid() && failed == Fails(req, w, tried)
      ensures nowProgress == ProgressAt(step, tried + 1)
      ensures sent == old(sent) + [Progress(nowProgress.Floor)]
      ensures lock.es == (if req.silence then [] else Executed(req, w, tried + 1))
      ensures lock.repr >= old(lock.repr) && fresh(lock.repr - old(lock.repr))
    {
      hide Steps, StableCommand, Locker.Valid, Executed, ProgressAt;
      NextStep(old(sent), step, tried);
      ExecutedNext(req, w, tried);
      nowProgress := curProgress + step;
      Send(Progress(nowProgress.Floor));
      failed := Attempt(lock, req.commands[i], req.silence, w.outcome(tried));
    }

    /** The inner loop: one round over the commands. */
    method Round(lock: Locker, req: Request, w: World, r: nat, before: nat, progress: real, step: real,
                 ghost base: seq<Sent>)
      returns (error: Option<Error>, tried: nat, curProgress: real)
      requires req.commands != [] && r <= req.repeat && before == Offset(r, |req.commands|)
      requires lock.Valid() && Unstopped(req, w, before)
      requires progress == ProgressAt(step, before) && sent == base + Steps(step, before)
      requires lock.es == (if req.silence then [] else Executed(req, w, before))
      modifies `sent, lock`emitted, lock`watched, lock`es, lock`repr, lock.root`children, lock.repr`value
      ensures lock.Valid() && sent == base + Steps(step, tried)
      ensures lock.es == (if req.silence then [] else Executed(req, w, tried))
      ensures lock.repr >= old(lock.repr) && fresh(lock.repr - old(lock.repr))
      ensures error.Some? ==> StopsAt(req, w, tried, error)
      ensures error.None? ==>
                && tried == Offset(r + 1, |req.commands|) && Unstopped(req, w, tried)
                && curProgress == ProgressAt(step, tried)
    {
      hide *;
      var n := |req.commands|;
      error, tried, curProgress := None, before, progress;
      NextRound(r, n);
      var i := 0;
      while i < n
        invariant i <= n && tried == before + i && error == None
        invariant lock.Valid() && Unstopped(req, w, tried)
        invariant curProgress == ProgressAt(step, tried) && sent == base + Steps(step, tried)
        invariant lock.es == (if req.silence then [] else Executed(req, w, tried))
        invariant lock.repr >= old(lock.repr) && fresh(lock.repr - old(lock.repr))
      {
        Position(req, r, i);
        Stops(req, w, tried);
        if w.interrupted(tried) {
          error := Some(Interrupted);
          return;
        }
        NextStep(base, step, tried);
        var failed;
        curProgress, failed := Try(lock, req, w, i, tried, curProgress, step);
        tried := tried + 1;
        if failed {
          error := Some(ExecutionFailed);
          return;
        }
        i := i + 1;
      }
    }

    /** The outer loop. */
    method Loop(lock: Locker, req: Request, w: World) returns (error: Option<Error>, tried: nat)
      requires req.commands != [] && lock.Valid() && lock.es == []
      modifies `sent, lock`emitted, lock`watched, lock`es, lock`repr, lock.root`children, lock.repr`value
      ensures StopsAt(req, w, tried, error) && lock.Valid()
      ensures sent == old(sent) + Steps(StepOf(Total(req)), tried)
      ensures lock.es == (if req.silence then [] else Executed(req, w, tried))
    {
      hide *;
      NothingTried(old(sent), req, w);
      var n := |req.commands|;
      var step := StepOf(Total(req));
      var curProgress := 0.0;
      error, tried := None, 0;
      var r := 0;
      while r < req.repeat + 1
        invariant r <= req.repeat + 1 && tried == Offset(r, n) && error == None
        invariant lock.Valid() && Unstopped(req, w, tried)
        invariant curProgress == ProgressAt(step, tried) && sent == old(sent) + Steps(step, tried)
        invariant lock.es == (if req.silence then [] else Executed(req, w, tried))
        invariant lock.repr >= old(lock.repr) && fresh(lock.repr - old(lock.repr))
      {
        error, tried, curProgress := Round(lock, req, w, r, tried, curProgress, step, old(sent));
        if error != None {
          return;
        }
        r := r + 1;
      }
      LastRound(req);
      Finished(req, w, tried);
    }
  }

  /** No interruption and no failure in the first k attempts. */
  ghost predicate Unstopped(req: Request, w: World, k: nat)
    requires req.commands != []
  {
    forall q :: 0 <= q < k ==> !w.interrupted(q) && !Fails(req, w, q)
  }

  lemma NothingTried(sent: seq<Sent>, req: Request, w: World)
    requires req.commands != []
    ensures Unstopped(req, w, 0) && Executed(req, w, 0) == []
    ensures Offset(0, |req.commands|) == 0
    ensures var step := StepOf(Total(req)); sent + Steps(step, 0) == sent && ProgressAt(step, 0) == 0.0
  {
  }

  lemma Stops(req: Request, w: World, k: nat)
    requires req.commands != [] && Unstopped(req, w, k) && k < Total(req)
    ensures w.interrupted(k) ==> StopsAt(req, w, k, Some(Interrupted))
    ensures !w.interrupted(k) && Fails(req, w, k) ==> StopsAt(req, w, k + 1, Some(ExecutionFailed))
    ensures !w.interrupted(k) && !Fails(req, w, k) ==> Unstopped(req, w, k + 1)
  {
    hide Fails, Total;
  }

  lemma Finished(req: Request, w: World, k: nat)
    requires req.commands != [] && Unstopped(req, w, k) && k == Total(req)
    ensures StopsAt(req, w, k, None)
  {
    hide Fails, Total;
  }

  /** The number of attempts before round r. */
  function Offset(r: nat, n: nat): nat { r * n }

  lemma NextRound(r: nat, n: nat)
    ensures Offset(r, n) + n == Offset(r + 1, n)
  {
  }

  lemma LastRound(req: Request)
    ensures Offset(req.repeat + 1, |req.commands|) == Total(req)
  {
  }

  lemma Position(req: Request, r: nat, i: nat)
    requires i < |req.commands| && r <= req.repeat
    ensures var n := |req.commands|; Offset(r, n) + i < Total(req) && (Offset(r, n) + i) % n == i
  {
    var n := |req.commands|;
    NextRound(r, n);
    OffsetGrows(r + 1, req.repeat + 1, n);
    LastRound(req);
    ModOfSum(r, n, i);
  }

  lemma OffsetGrows(a: nat, b: nat, n: nat)
    requires a <= b
    ensures Offset(a, n) <= Offset(b, n)
  {
    Product(b - a, n);
    assert Offset(b, n) == Offset(a, n) + (b - a) * n;
  }

  lemma Product(d: nat, n: nat)
    ensures d * n >= 0
  {
  }

  lemma ModOfSum(r: nat, n: nat, i: nat)
    requires i < n
    ensures (r * n + i) % n == i
  {
    var a := r * n + i;
    var d := a / n - r;
    assert d * n == i - a % n;
    Multiple(d, n);
  }

  lemma Multiple(d: int, n: int)
    ensures n >= 0 && d >= 1 ==> d * n == n * d >= n
    ensures n >= 0 && d <= -1 ==> d * n <= -n
  {
  }

  // ----- the run as a whole -----

  function Texts(req: Request): (r: seq<string>)
    ensures |r| == |req.commands| && forall i :: 0 <= i < |r| ==> r[i] == StableCommand(req.commands[i])
  {
    seq(|req.commands|, i requires 0 <= i < |req.commands| => StableCommand(req.commands[i]))
  }

  function ResultsIn(w: World): nat -> seq<string> { (k: nat) => w.outcome(k).results }

  /** Attempt k executes command k modulo their number. */
  lemma {:induction false} ExecutedIsRepeated(req: Request, w: World, k: nat)
    requires req.commands != [] && forall i :: 0 <= i < |req.commands| ==> StableCommand(req.commands[i]) != ""
    ensures Executed(req, w, k) == Repeated(Texts(req), ResultsIn(w), k)
    decreases k
  {
    hide StableCommand, Executed;
    ExecutedNext(req, w, 0);
    if k > 0 {
      ExecutedIsRepeated(req, w, k - 1);
      ExecutedNext(req, w, k - 1);
      var n := |req.commands|;
      assert 0 <= (k - 1) % n < n;
      assert Repeated(Texts(req), ResultsIn(w), k)
          == Repeated(Texts(req), ResultsIn(w), k - 1) + [Exec(TextAt(req, k - 1), w.outcome(k - 1).results)];
    }
  }

  /** After a run of distinct commands with history off, whatever the number of repeats and wherever
      it stopped: every command that had a result was announced once, and its first result once; no
      repeated command and no further result was announced; and the first child of the command holds
      the last value attached by the most recent execution of it that attached any (the m-th). */
  lemma FoldedRun(lock: Locker, req: Request, w: World, tried: nat, k: nat, m: nat)
    requires lock.Valid() && !lock.history && lock.limit == |req.commands| && req.commands != []
    requires lock.es == Executed(req, w, tried)
    requires forall i :: 0 <= i < |req.commands| ==> StableCommand(req.commands[i]) != ""
    requires Distinct(Texts(req))
    requires k < |req.commands| && k <= m < tried && m % |req.commands| == k
    requires w.outcome(k).results != [] && w.outcome(m).results != []
    requires forall i :: m < i < tried && i % |req.commands| == k ==> w.outcome(i).results == []
    ensures var events, n := ToldAll(lock.emitted), |req.commands|;
            && Count(events, Shown(Command(k))) == 1
            && Count(events, Shown(Result(k, 0))) == 1
            && (forall i: nat :: i >= n ==> Count(events, Shown(Command(i))) == 0)
            && (forall i: nat, j: nat :: i >= n || j > 0 ==> Count(events, Shown(Result(i, j))) == 0)
    ensures var results := w.outcome(m).results;
            && k < |lock.root.children| && lock.root.children[k].children != []
            && lock.root.children[k].children[0].value == results[|results| - 1]
  {
    var n, texts, results := |req.commands|, Texts(req), ResultsIn(w);
    hide Events, Count, Displayed, AllResults, ValueOf, ToldAll, Executed;
    ExecutedIsRepeated(req, w, tried);
    forall i | m < i < tried && i % |texts| == k ensures results(i) == [] {
    }
    RepeatsFold(texts, results, tried, k, m);
    ValueIsDisplayed(lock, texts, results, tried, k, m);
  }

  /** At any point of a run with history the client has been shown every command that was executed and
      every result it attached, once each and in order, and nothing was updated: each result node
      holds its own value. */
  lemma FullRun(lock: Locker)
    requires lock.Valid() && lock.history
    ensures ToldAll(lock.emitted) == InOrder(lock.es) && |lock.root.children| == |lock.es|
    ensures forall k :: 0 <= k < |lock.es| ==>
              var c, results := lock.root.children[k], lock.es[k].results;
              && c.input == lock.es[k].text && |c.children| == |results|
              && forall j :: 0 <= j < |results| ==> c.children[j].value == results[j]
    ensures forall k: nat, j: nat :: Count(ToldAll(lock.emitted), Shown(Result(k, j))) ==
              if k < |lock.es| && j < |lock.es[k].results| then 1 else 0
  {
    HistoryIsInOrder(lock.limit, lock.es);
    hide Events, Count, InOrder, ToldAll, AllResults, Owner;
    forall k | 0 <= k < |lock.es|
      ensures var c := lock.root.children[k];
              c.input == lock.es[k].text && |c.children| == |lock.es[k].results|
    {
      NodeFacts(lock, lock.root.children[k], k, lock.es[k]);
    }
    forall k: nat, j: nat
      ensures Count(ToldAll(lock.emitted), Shown(Result(k, j))) ==
              if k < |lock.es| && j < |lock.es[k].results| then 1 else 0
    {
      HistoryShowsAll(lock.limit, lock.es, k, j);
    }
  }

  lemma ValueOfOwner(es: seq<Exec>, limit: nat, k: nat, m: nat)
    requires k < |es| && m < |es| && es[k].text == es[m].text && es[k].results != [] && es[m].results != []
    requires IsOwner(es, k, limit)
    requires forall i :: m < i < |es| && es[i].text == es[m].text ==> es[i].results == []
    ensures ValueOf(Mode(false, limit), es, k, 0) == es[m].results[|es[m].results| - 1]
  {
    hide AllResults, Owner, IsOwner;
    OwnerIff(es, k, limit);
    MostRecent(es, m);
  }

  lemma ValueIsDisplayed(lock: Locker, texts: seq<string>, results: nat -> seq<string>, tried: nat, k: nat, m: nat)
    requires lock.Valid() && !lock.history && lock.limit == |texts| && texts != [] && Distinct(texts)
    requires lock.es == Repeated(texts, results, tried)
    requires k < |texts| && k <= m < tried && m % |texts| == k && results(k) != [] && results(m) != []
    requires forall i :: m < i < tried && i % |texts| == k ==> results(i) == []
    ensures lock.root.children[k].children != []
    ensures lock.root.children[k].children[0].value == results(m)[|results(m)| - 1]
  {
    var es := lock.es;
    assert lock.root.children[k].children != [] && lock.root.children[k].children[0].value
                                                == ValueOf(lock.TheMode(), es, k, 0) by {
      hide Events, AllResults, ToldAll, Owner, ValueOf;
      NodeFacts(lock, lock.root.children[k], k, es[k]);
    }
    hide Locker.Valid, ValueOf;
    Small(k, |texts|);
    RepeatsBelong(texts, results, tried, k);
    ValueOfOwner(es, |texts|, k, m);
  }
}
