/** What an execute run announces about its tree of commands and results, as a function of what was
    executed. */
module Announcements {
  import opened Sequences

  /** A node of the tree: the k-th executed command, or its j-th direct result. */
  datatype Id = Root | Command(k: nat) | Result(k: nat, j: nat)

  /** What reaches the client: a new node, or a new value in a node it knows. */
  datatype Event = Shown(id: Id) | Updated(id: Id, value: string)

  /** An executed command: its text, and the values of the direct results attached so far. */
  datatype Exec = Exec(text: string, results: seq<string>)

  /** How announcements are filtered: not at all with history on; otherwise only the first `limit`
      commands are watched. */
  datatype Mode = Mode(history: bool, limit: nat)

  /** The first of the watched commands with this text, or |es|. */
  function Owner(es: seq<Exec>, text: string, limit: nat): (o: nat)
    ensures o < |es| ==> o < limit && es[o].text == text
    ensures forall i :: 0 <= i < |es| && i < limit && es[i].text == text ==> o <= i
  {
    if es == [] || limit == 0 then |es|
    else if es[0].text == text then 0
    else
      1 + Owner(es[1..], text, limit - 1)
  }

  lemma OwnerIs(es: seq<Exec>, text: string, limit: nat, o: nat)
    requires o < |es| && o < limit && es[o].text == text
    requires forall i :: 0 <= i < o ==> es[i].text != text
    ensures Owner(es, text, limit) == o
  {
  }

  // ----- the announcements -----

  function OnCommand(mode: Mode, k: nat): seq<Event> {
    if mode.history || k < mode.limit then [Shown(Command(k))] else []
  }

  /** The next result of the last command. */
  function OnResult(mode: Mode, es: seq<Exec>, value: string): seq<Event>
    requires es != []
  {
    var k := |es| - 1;
    var j := |es[k].results|;
    var o := Owner(es, es[k].text, mode.limit);
    if mode.history then [Shown(Result(k, j))]
    else if o >= |es| then []
    else if o == k && j == 0 then [Shown(Result(k, 0))]
    else if es[o].results == [] then []
    else [Updated(Result(o, 0), value)]
  }

  function WithResults(es: seq<Exec>, results: seq<string>): (r: seq<Exec>)
    requires es != []
    ensures |r| == |es|
  {
    es[|es| - 1 := es[|es| - 1].(results := results)]
  }

  function LastSize(es: seq<Exec>): nat { if es == [] then 0 else |es[|es| - 1].results| + 1 }

  /** What was announced after executing `es`. */
  function Events(mode: Mode, es: seq<Exec>): seq<Event>
    decreases |es|, LastSize(es)
  {
    if es == [] then []
    else
      var n := |es| - 1;
      var rs := es[n].results;
      if rs == [] then Events(mode, es[..n]) + OnCommand(mode, n)
      else
        var before := WithResults(es, rs[..|rs| - 1]);
        Events(mode, before) + OnResult(mode, before, rs[|rs| - 1])
  }

  lemma CommandAdded(mode: Mode, es: seq<Exec>, text: string)
    ensures Events(mode, es + [Exec(text, [])]) == Events(mode, es) + OnCommand(mode, |es|)
  {
    assert (es + [Exec(text, [])])[..|es|] == es;
  }

  lemma ResultAdded(mode: Mode, es: seq<Exec>, value: string)
    requires es != []
    ensures Events(mode, WithResults(es, es[|es| - 1].results + [value]))
         == Events(mode, es) + OnResult(mode, es, value)
  {
    var n := |es| - 1;
    var rs := es[n].results;
    var after := WithResults(es, rs + [value]);
    assert (rs + [value])[..|rs|] == rs;
    assert WithResults(after, rs) == es;
  }

  // ----- each node is announced at most once -----

  function Count(events: seq<Event>, e: Event): nat { multiset(events)[e] }

  lemma CountConcat(a: seq<Event>, b: seq<Event>, e: Event)
    ensures Count(a + b, e) == Count(a, e) + Count(b, e)
  {
  }

  /** The last step of a run. */
  lemma LastStep(mode: Mode, es: seq<Exec>) returns (before: seq<Exec>, step: seq<Event>)
    requires es != []
    ensures Events(mode, es) == Events(mode, before) + step
    ensures var n := |es| - 1; var rs := es[n].results;
            if rs == [] then before == es[..n] && step == OnCommand(mode, n)
            else before == WithResults(es, rs[..|rs| - 1]) && step == OnResult(mode, before, rs[|rs| - 1])
    ensures var n := |es| - 1; var rs := es[n].results;
            if rs == [] then |before| == n else |before| == n + 1 && before[n] == Exec(es[n].text, rs[..|rs| - 1])
    ensures forall i :: 0 <= i < |es| - 1 ==> before[i] == es[i]
    ensures |before| < |es| || LastSize(before) < LastSize(es)
  {
    var n := |es| - 1;
    var rs := es[n].results;
    if rs == [] {
      before, step := es[..n], OnCommand(mode, n);
    } else {
      before := WithResults(es, rs[..|rs| - 1]);
      step := OnResult(mode, before, rs[|rs| - 1]);
    }
  }

  lemma CountOnCommand(mode: Mode, n: nat, k: nat, j: nat)
    ensures Count(OnCommand(mode, n), Shown(Command(k))) == if k == n && (mode.history || k < mode.limit) then 1 else 0
    ensures Count(OnCommand(mode, n), Shown(Result(k, j))) == 0
  {
  }

  lemma CountOnResult(mode: Mode, es: seq<Exec>, value: string, k: nat, j: nat)
    requires es != []
    ensures Count(OnResult(mode, es, value), Shown(Command(k))) == 0
    ensures !mode.history ==>
              var n := |es| - 1;
              Count(OnResult(mode, es, value), Shown(Result(k, j))) ==
              if k == n && j == 0 && es[n].results == [] && Owner(es, es[n].text, mode.limit) == n then 1 else 0
  {
    hide Owner;
  }

  /** Each watched command is announced exactly once, and no other command. */
  lemma {:induction false} CommandsShownOnce(mode: Mode, es: seq<Exec>, k: nat)
    ensures Count(Events(mode, es), Shown(Command(k))) == if k < |es| && (mode.history || k < mode.limit) then 1 else 0
    decreases |es|, LastSize(es)
  {
    if es == [] {
      assert Events(mode, es) == [];
    } else {
      var before, step := LastStep(mode, es);
      hide *;
      CommandsShownOnce(mode, before, k);
      CountConcat(Events(mode, before), step, Shown(Command(k)));
      var n := |es| - 1;
      var rs := es[n].results;
      if rs == [] {
        CountOnCommand(mode, n, k, 0);
      } else {
        CountOnResult(mode, before, rs[|rs| - 1], k, 0);
      }
    }
  }

  /** The command is the one under which the results of its text are shown. */
  ghost predicate IsOwner(es: seq<Exec>, k: nat, limit: nat) {
    k < |es| && k < limit && forall i :: 0 <= i < k ==> es[i].text != es[k].text
  }

  lemma OwnerIff(es: seq<Exec>, k: nat, limit: nat)
    requires k < |es|
    ensures Owner(es, es[k].text, limit) == k <==> IsOwner(es, k, limit)
  {
    if IsOwner(es, k, limit) {
      OwnerIs(es, es[k].text, limit, k);
    }
  }

  /** Without history, only the first result of an owner is announced, and exactly once. */
  lemma {:induction false} ResultsShownOnce(limit: nat, es: seq<Exec>, k: nat, j: nat)
    ensures Count(Events(Mode(false, limit), es), Shown(Result(k, j))) ==
            if IsOwner(es, k, limit) && j == 0 && es[k].results != [] then 1 else 0
    decreases |es|, LastSize(es)
  {
    var mode := Mode(false, limit);
    if es == [] {
      assert Events(mode, es) == [];
    } else {
      var before, step := LastStep(mode, es);
      hide Events, OnResult, OnCommand, Count, Owner, WithResults, LastSize, IsOwner;
      var n := |es| - 1;
      var rs := es[n].results;
      ResultsShownOnce(limit, before, k, j);
      CountConcat(Events(mode, before), step, Shown(Result(k, j)));
      OwnersAfter(es, before, k, limit);
      if rs == [] {
        CountOnCommand(mode, n, k, j);
      } else {
        CountOnResult(mode, before, rs[|rs| - 1], k, j);
        OwnerIff(before, n, limit);
      }
    }
  }

  lemma CountOnResultInHistory(limit: nat, es: seq<Exec>, value: string, k: nat, j: nat)
    requires es != []
    ensures var n := |es| - 1;
            Count(OnResult(Mode(true, limit), es, value), Shown(Result(k, j))) ==
            if k == n && j == |es[n].results| then 1 else 0
  {
    hide Owner;
  }

  /** With history, every result of every command is announced, and exactly once. */
  lemma {:induction false} HistoryShowsAll(limit: nat, es: seq<Exec>, k: nat, j: nat)
    ensures Count(Events(Mode(true, limit), es), Shown(Result(k, j))) ==
            if k < |es| && j < |es[k].results| then 1 else 0
    decreases |es|, LastSize(es)
  {
    var mode := Mode(true, limit);
    if es == [] {
      assert Events(mode, es) == [];
    } else {
      var before, step := LastStep(mode, es);
      hide *;
      var n := |es| - 1;
      var rs := es[n].results;
      HistoryShowsAll(limit, before, k, j);
      CountConcat(Events(mode, before), step, Shown(Result(k, j)));
      if rs == [] {
        CountOnCommand(mode, n, k, j);
      } else {
        CountOnResultInHistory(limit, before, rs[|rs| - 1], k, j);
      }
    }
  }

  /** The nodes of a tree in order: each command followed by its results. */
  function InOrder(es: seq<Exec>): seq<Event>
    decreases |es|
  {
    if es == [] then []
    else
      var n := |es| - 1;
      InOrder(es[..n]) + [Shown(Command(n))] + ShownResults(n, |es[n].results|)
  }

  function ShownResults(n: nat, count: nat): seq<Event> {
    seq(count, j requires 0 <= j < count => Shown(Result(n, j)))
  }

  /** With history, the announcements are the nodes of the tree in order, and nothing else. */
  lemma {:induction false} HistoryIsInOrder(limit: nat, es: seq<Exec>)
    ensures Events(Mode(true, limit), es) == InOrder(es)
    decreases |es|, LastSize(es)
  {
    if es != [] {
      var n := |es| - 1;
      var rs := es[n].results;
      var before, step := LastStep(Mode(true, limit), es);
      hide Events, InOrder, Owner, WithResults, LastSize;
      HistoryIsInOrder(limit, before);
      OneMoreInOrder(es);
    }
  }

  lemma OneMoreInOrder(es: seq<Exec>)
    requires es != []
    ensures var n := |es| - 1; var rs := es[n].results;
            InOrder(es) == if rs == [] then InOrder(es[..n]) + [Shown(Command(n))]
                           else InOrder(WithResults(es, rs[..|rs| - 1])) + [Shown(Result(n, |rs| - 1))]
  {
    var n := |es| - 1;
    var rs := es[n].results;
    if rs != [] {
      var before := WithResults(es, rs[..|rs| - 1]);
      assert before[..n] == es[..n];
      assert ShownResults(n, |rs|) == ShownResults(n, |rs| - 1) + [Shown(Result(n, |rs| - 1))];
    } else {
      assert ShownResults(n, 0) == [];
    }
  }

  /** A result node that may be updated: the first one of an owner. */
  ghost predicate OnShow(es: seq<Exec>, id: Id, limit: nat) {
    id.Result? && id.j == 0 && IsOwner(es, id.k, limit) && es[id.k].results != []
  }

  ghost predicate AllOnShow(mode: Mode, es: seq<Exec>, events: seq<Event>) {
    forall e :: e in events && e.Updated? ==> !mode.history && OnShow(es, e.id, mode.limit)
  }

  /** Such a node is the only one that is ever updated, and none is with history. */
  lemma {:induction false} UpdatesAreOnShow(mode: Mode, es: seq<Exec>)
    ensures AllOnShow(mode, es, Events(mode, es))
    decreases |es|, LastSize(es)
  {
    if es == [] {
      assert Events(mode, es) == [];
    } else {
      var before, step := LastStep(mode, es);
      var n := |es| - 1;
      var rs := es[n].results;
      hide *;
      UpdatesAreOnShow(mode, before);
      if rs == [] {
        CommandUpdates(mode, before, n);
      } else {
        UpdatedNow(mode, before, rs[|rs| - 1]);
      }
      AllStay(mode, es, before, Events(mode, before), step);
    }
  }

  /** So only the first result of the first watched command with its text is updated. */
  lemma UpdatesAreOwners(mode: Mode, es: seq<Exec>, e: Event)
    requires e in Events(mode, es) && e.Updated?
    ensures !mode.history && e.id.Result? && e.id.j == 0
    ensures IsOwner(es, e.id.k, mode.limit) && es[e.id.k].results != []
  {
    UpdatesAreOnShow(mode, es);
  }

  lemma CommandUpdates(mode: Mode, es: seq<Exec>, n: nat)
    ensures AllOnShow(mode, es, OnCommand(mode, n))
  {
  }

  lemma AllStay(mode: Mode, es: seq<Exec>, before: seq<Exec>, events: seq<Event>, step: seq<Event>)
    requires AllOnShow(mode, before, events) && AllOnShow(mode, before, step) && |before| <= |es|
    requires forall i :: 0 <= i < |before| ==>
               before[i].text == es[i].text && (before[i].results != [] ==> es[i].results != [])
    ensures AllOnShow(mode, es, events + step)
  {
    hide OnShow;
    forall e | e in events + step && e.Updated? ensures !mode.history && OnShow(es, e.id, mode.limit) {
      StaysOnShow(es, before, e.id, mode.limit);
    }
  }

  lemma UpdatedNow(mode: Mode, es: seq<Exec>, value: string)
    requires es != []
    ensures AllOnShow(mode, es, OnResult(mode, es, value))
  {
  }

  lemma StaysOnShow(es: seq<Exec>, before: seq<Exec>, id: Id, limit: nat)
    requires OnShow(before, id, limit) && |before| <= |es|
    requires forall i :: 0 <= i < |before| ==>
               before[i].text == es[i].text && (before[i].results != [] ==> es[i].results != [])
    ensures OnShow(es, id, limit)
  {
  }

  lemma OwnersAfter(es: seq<Exec>, before: seq<Exec>, k: nat, limit: nat)
    requires |before| <= |es| && forall i :: 0 <= i < |before| ==> before[i].text == es[i].text
    ensures IsOwner(before, k, limit) <==> k < |before| && IsOwner(es, k, limit)
  {
  }

  // ----- what is displayed -----

  /** All results of commands with this text, in the order in which they arrived. */
  function AllResults(es: seq<Exec>, text: string): seq<string>
    decreases |es|
  {
    if es == [] then []
    else
      var n := |es| - 1;
      AllResults(es[..n], text) + if es[n].text == text then es[n].results else []
  }

  /** The value of a result node for a client that follows the announcements: the value it was shown
      with until the last update. */
  function Displayed(events: seq<Event>, id: Id, first: string): string
    decreases |events|
  {
    if events == [] then first
    else
      match events[|events| - 1]
      case Updated(i, v) => if i == id then v else Displayed(events[..|events| - 1], id, first)
      case Shown(_) => Displayed(events[..|events| - 1], id, first)
  }

  lemma AllResultsNext(es: seq<Exec>, text: string)
    requires es != []
    ensures var n := |es| - 1; var rs := es[n].results;
            && AllResults(es[..n], text) == (if rs == [] then AllResults(es, text) else AllResults(es[..n], text))
            && (rs != [] ==>
                AllResults(es, text) == AllResults(WithResults(es, rs[..|rs| - 1]), text)
                                        + if es[n].text == text then [rs[|rs| - 1]] else [])
  {
    var n := |es| - 1;
    var rs := es[n].results;
    if rs != [] {
      var before := WithResults(es, rs[..|rs| - 1]);
      assert before[..n] == es[..n] && rs == rs[..|rs| - 1] + [rs[|rs| - 1]];
    } else {
      assert AllResults(es[..n], text) + [] == AllResults(es[..n], text);
    }
  }

  lemma DisplayedStep(events: seq<Event>, step: seq<Event>, id: Id, first: string)
    requires |step| <= 1
    ensures Displayed(events + step, id, first) ==
            if step != [] && step[0].Updated? && step[0].id == id then step[0].value else Displayed(events, id, first)
  {
    if step == [] {
      assert events + step == events;
    } else {
      assert (events + step)[..|events|] == events;
    }
  }

  lemma {:induction false} NotDisplayed(events: seq<Event>, id: Id, first: string)
    requires forall v :: Updated(id, v) !in events
    ensures Displayed(events, id, first) == first
    decreases |events|
  {
    if events != [] {
      assert events[|events| - 1] in events;
      NotDisplayed(events[..|events| - 1], id, first);
    }
  }

  lemma StepBack(es: seq<Exec>, o: nat)
    requires o < |es| && es[o].results != []
    ensures var n := |es| - 1; var rs := es[n].results;
            && (rs == [] ==> o < n && es[..n][o] == es[o] && forall i :: 0 <= i < n ==> es[..n][i].text == es[i].text)
            && (rs != [] ==>
                  var before := WithResults(es, rs[..|rs| - 1]);
                  && (forall i :: 0 <= i < |es| ==> before[i].text == es[i].text)
                  && before[n].results == rs[..|rs| - 1]
                  && (if o == n && |rs| == 1 then before[o].results == []
                      else before[o].results != [] && before[o].results[0] == es[o].results[0]))
  {
  }

  lemma CommandUpdatesNothing(mode: Mode, n: nat)
    ensures |OnCommand(mode, n)| <= 1 && forall i :: 0 <= i < |OnCommand(mode, n)| ==> OnCommand(mode, n)[i].Shown?
  {
  }

  lemma OwnerFirstResult(limit: nat, es: seq<Exec>, value: string, o: nat)
    requires es != [] && IsOwner(es, o, limit)
    ensures var step := OnResult(Mode(false, limit), es, value);
            |step| <= 1 && (o == |es| - 1 && es[o].results == [] ==> step == [Shown(Result(o, 0))])
  {
    OwnerIff(es, o, limit);
    hide Owner;
  }

  /** A further result updates the owner of its text and no other. */
  lemma OnLaterResult(limit: nat, es: seq<Exec>, value: string, o: nat)
    requires es != [] && IsOwner(es, o, limit) && es[o].results != []
    ensures var step := OnResult(Mode(false, limit), es, value);
            if es[|es| - 1].text == es[o].text then step == [Updated(Result(o, 0), value)]
            else step != [] ==> step[0].Updated? ==> step[0].id != Result(o, 0)
  {
    OwnerIff(es, o, limit);
    hide Owner;
  }

  /** Before its first result a node is not updated. */
  lemma NothingBefore(limit: nat, es: seq<Exec>, o: nat)
    requires o >= |es| || es[o].results == []
    ensures forall v :: Updated(Result(o, 0), v) !in Events(Mode(false, limit), es)
  {
    hide Events;
    UpdatesAreOnShow(Mode(false, limit), es);
    forall v ensures Updated(Result(o, 0), v) !in Events(Mode(false, limit), es) {
      assert Updated(Result(o, 0), v).Updated?;
    }
  }

  /** Under o a client that follows the announcements sees the most recent result of its text. */
  ghost predicate ShowsLatest(limit: nat, es: seq<Exec>, o: nat)
    requires o < |es| && es[o].results != []
  {
    var all := AllResults(es, es[o].text);
    all != [] && Displayed(Events(Mode(false, limit), es), Result(o, 0), es[o].results[0]) == all[|all| - 1]
  }

  lemma ShowsFirstResult(limit: nat, es: seq<Exec>, before: seq<Exec>, o: nat)
    requires IsOwner(es, o, limit) && o == |es| - 1 && |es[o].results| == 1
    requires before == WithResults(es, []) && IsOwner(before, o, limit)
    requires Events(Mode(false, limit), es) ==
             Events(Mode(false, limit), before) + OnResult(Mode(false, limit), before, es[o].results[0])
    ensures ShowsLatest(limit, es, o)
  {
    var first := es[o].results[0];
    hide Events, OnResult, Displayed, AllResults, Owner, IsOwner;
    assert es[o].results == [first] && es[o].results[..0] == [];
    AllResultsNext(es, es[o].text);
    OwnerFirstResult(limit, before, first, o);
    DisplayedStep(Events(Mode(false, limit), before), [Shown(Result(o, 0))], Result(o, 0), first);
    NothingBefore(limit, before, o);
    NotDisplayed(Events(Mode(false, limit), before), Result(o, 0), first);
  }

  lemma ShowsLaterResult(limit: nat, es: seq<Exec>, before: seq<Exec>, o: nat)
    requires es != [] && o < |es| && es[o].results != [] && es[|es| - 1].results != []
    requires var rs := es[|es| - 1].results; before == WithResults(es, rs[..|rs| - 1])
    requires before[|es| - 1].text == es[|es| - 1].text
    requires before[o].results != [] && before[o].results[0] == es[o].results[0] && before[o].text == es[o].text
    requires IsOwner(before, o, limit) && ShowsLatest(limit, before, o)
    requires var mode, rs := Mode(false, limit), es[|es| - 1].results;
             Events(mode, es) == Events(mode, before) + OnResult(mode, before, rs[|rs| - 1])
    ensures ShowsLatest(limit, es, o)
  {
    var mode, rs := Mode(false, limit), es[|es| - 1].results;
    var step := OnResult(mode, before, rs[|rs| - 1]);
    hide Events, OnResult, Displayed, AllResults, Owner, IsOwner, WithResults;
    AllResultsNext(es, es[o].text);
    OwnerFirstResult(limit, before, rs[|rs| - 1], o);
    OnLaterResult(limit, before, rs[|rs| - 1], o);
    DisplayedStep(Events(mode, before), step, Result(o, 0), es[o].results[0]);
    var all := AllResults(before, es[o].text);
    if es[|es| - 1].text == es[o].text {
      LastOf(all, rs[|rs| - 1]);
    } else {
      assert all + [] == all;
    }
  }

  lemma {:induction false} DisplayIsLatest(limit: nat, es: seq<Exec>, o: nat)
    requires IsOwner(es, o, limit) && es[o].results != []
    ensures ShowsLatest(limit, es, o)
    decreases |es|, |es[|es| - 1].results| + 1
  {
    var mode, n, text := Mode(false, limit), |es| - 1, es[o].text;
    var rs := es[n].results;
    var before, step := LastStep(mode, es);
    StepBack(es, o);
    OwnersAfter(es, before, o, limit);
    hide Events, Displayed, AllResults, IsOwner, OnResult, OnCommand;
    if rs == [] {
      AllResultsNext(es, text);
      DisplayedStep(Events(mode, before), step, Result(o, 0), es[o].results[0]);
      CommandUpdatesNothing(mode, n);
      DisplayIsLatest(limit, before, o);
    } else if o == n && |rs| == 1 {
      assert rs[..0] == [];
      ShowsFirstResult(limit, es, before, o);
    } else {
      DisplayIsLatest(limit, before, o);
      ShowsLaterResult(limit, es, before, o);
    }
  }

  // ----- repeated runs -----

  /** The first `count` executions of a list of commands that is repeated. */
  function Repeated(texts: seq<string>, results: nat -> seq<string>, count: nat): (es: seq<Exec>)
    requires texts != []
    ensures |es| == count && forall k :: 0 <= k < count ==> es[k] == Exec(texts[k % |texts|], results(k))
  {
    seq(count, k requires 0 <= k < count => Exec(texts[k % |texts|], results(k)))
  }

  lemma {:induction false} MostRecent(es: seq<Exec>, m: nat)
    requires m < |es| && es[m].results != []
    requires forall i :: m < i < |es| && es[i].text == es[m].text ==> es[i].results == []
    ensures var all, rs := AllResults(es, es[m].text), es[m].results;
            all != [] && all[|all| - 1] == rs[|rs| - 1]
    decreases |es|
  {
    var n := |es| - 1;
    if m < n {
      MostRecent(es[..n], m);
    }
  }

  lemma RepeatsBelong(texts: seq<string>, results: nat -> seq<string>, count: nat, k: nat)
    requires texts != [] && Distinct(texts) && k < count
    ensures IsOwner(Repeated(texts, results, count), k, |texts|) <==> k < |texts|
    ensures forall i :: 0 <= i < count ==>
              (Repeated(texts, results, count)[i].text == texts[k % |texts|] <==> i % |texts| == k % |texts|)
  {
    var n, es := |texts|, Repeated(texts, results, count);
    forall i | 0 <= i < count
      ensures es[i].text == texts[k % n] <==> i % n == k % n
    {
      assert 0 <= i % n < n && 0 <= k % n < n;
    }
    if k < n {
      forall i | 0 <= i < k ensures es[i].text != es[k].text {
        Small(i, n);
        Small(k, n);
      }
    }
  }

  lemma Small(i: nat, n: nat)
    requires i < n
    ensures i % n == i
  {
  }

  /** A run of distinct commands, repeated any number of times, shows every command once, its first
      result once and nothing else, and under it stands the most recent result of that command:
      the m-th execution is the last one of the k-th command that had a result. */
  lemma RepeatsFold(texts: seq<string>, results: nat -> seq<string>, count: nat, k: nat, m: nat)
    requires texts != [] && Distinct(texts) && k < |texts| && k <= m < count && m % |texts| == k
    requires results(k) != [] && results(m) != []
    requires forall i :: m < i < count && i % |texts| == k ==> results(i) == []
    ensures var events := Events(Mode(false, |texts|), Repeated(texts, results, count));
            && Count(events, Shown(Command(k))) == 1
            && Count(events, Shown(Result(k, 0))) == 1
            && (forall i: nat :: i >= |texts| ==> Count(events, Shown(Command(i))) == 0)
            && (forall i: nat, j: nat :: i >= |texts| || j > 0 ==> Count(events, Shown(Result(i, j))) == 0)
            && Displayed(events, Result(k, 0), results(k)[0]) == results(m)[|results(m)| - 1]
  {
    var n := |texts|;
    var mode, es := Mode(false, n), Repeated(texts, results, count);
    hide Events, Count, Displayed, AllResults;
    Small(k, n);
    RepeatsBelong(texts, results, count, k);
    forall i: nat ensures i >= n ==> Count(Events(mode, es), Shown(Command(i))) == 0 {
      CommandsShownOnce(mode, es, i);
    }
    forall i: nat, j: nat ensures i >= n || j > 0 ==> Count(Events(mode, es), Shown(Result(i, j))) == 0 {
      ResultsShownOnce(n, es, i, j);
    }
    CommandsShownOnce(mode, es, k);
    ResultsShownOnce(n, es, k, 0);
    DisplayIsLatest(n, es, k);
    MostRecent(es, m);
  }
}
