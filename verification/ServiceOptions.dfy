/** The command line of a service: what RegisterService makes of its arguments. */
module ServiceOptions {
  import opened Options
  import opened Seqs

  datatype Field = StartName | Password
  datatype Action = Install | Remove | Startup | End | Dispatch
  datatype Call = Do(action: Action) | DebugService(faceless: bool)

  /** What one command-line option says; a value stands in the option's own argument or in the next one.
  `rest` is whatever follows the letter, which nobody reads. */
  datatype Item =
    | Other(s: string)
    | Flag(action: Action, rest: string)
    | Attached(field: Field, value: string)
    | Separate(field: Field, value: string)
    | Debug(faceless: bool, rest: string)

  function ActionLetter(a: Action): char
    requires a != Dispatch
  {
    match a
    case Install => 'i'
    case Remove => 'u'
    case Startup => 's'
    case End => 'e'
  }

  function FieldLetter(f: Field): char {
    if f == StartName then 'l' else 'p'
  }

  /** An argument with one of the letters the parser knows. */
  predicate IsOption(s: string) {
    |s| >= 2 && s[0] == '-' && IsLetter(s[1])
  }

  predicate IsLetter(c: char) {
    c == 'i' || c == 'l' || c == 'p' || c == 'u' || c == 's' || c == 'e' || c == 'd' || c == 'f'
  }

  predicate IsBare(s: string) {
    s == "-l" || s == "-p"
  }

  predicate ValidItem(it: Item) {
    match it
    case Other(s) => !IsOption(s)
    case Flag(a, _) => a != Dispatch
    case Attached(_, v) => v != []
    case _ => true
  }

  function Render(it: Item): seq<string>
    requires ValidItem(it)
  {
    match it
    case Other(s) => [s]
    case Flag(a, rest) => [['-', ActionLetter(a)] + rest]
    case Attached(f, v) => [['-', FieldLetter(f)] + v]
    case Separate(f, v) => [['-', FieldLetter(f)], v]
    case Debug(faceless, rest) => [['-', if faceless then 'f' else 'd'] + rest]
  }

  /** How each option is spelled. */
  lemma Spelling(rest: string, v: string)
    ensures Render(Flag(Install, rest)) == ["-i" + rest] && Render(Flag(Remove, rest)) == ["-u" + rest]
    ensures Render(Flag(Startup, rest)) == ["-s" + rest] && Render(Flag(End, rest)) == ["-e" + rest]
    ensures v != [] ==> Render(Attached(StartName, v)) == ["-l" + v] && Render(Attached(Password, v)) == ["-p" + v]
    ensures Render(Separate(StartName, v)) == ["-l", v] && Render(Separate(Password, v)) == ["-p", v]
    ensures Render(Debug(false, rest)) == ["-d" + rest] && Render(Debug(true, rest)) == ["-f" + rest]
  {
  }

  predicate ValidItems(items: seq<Item>) {
    forall i :: 0 <= i < |items| ==> ValidItem(items[i])
  }

  /** Debug stops the parser, so it can only come last. */
  predicate DebugOnlyLast(items: seq<Item>) {
    forall i :: 0 <= i < |items| - 1 ==> !items[i].Debug?
  }

  predicate EndsInDebug(items: seq<Item>) {
    items != [] && items[|items| - 1].Debug?
  }

  function RenderAll(items: seq<Item>): seq<string>
    requires ValidItems(items)
  {
    if items == [] then [] else Render(items[0]) + RenderAll(items[1..])
  }

  /** The options read; the arguments after a debug option, which are never read; and whether the line ends in
  a -l or -p that wants a value and has none. */
  datatype Parse = Parse(items: seq<Item>, unread: seq<string>, bare: bool)

  /** One argument on its own; a bare value option is not decided here. */
  function Classify(s: string): (it: Item)
    requires !IsBare(s)
    ensures ValidItem(it) && Render(it) == [s] && !it.Separate?
  {
    if !IsOption(s) then Other(s)
    else
      assert s == [s[0], s[1]] + s[2..];
      if s[1] == 'l' then Attached(StartName, s[2..])
      else if s[1] == 'p' then Attached(Password, s[2..])
      else if s[1] == 'i' then Flag(Install, s[2..])
      else if s[1] == 'u' then Flag(Remove, s[2..])
      else if s[1] == 's' then Flag(Startup, s[2..])
      else if s[1] == 'e' then Flag(End, s[2..])
      else Debug(s[1] == 'f', s[2..])
  }

  function BareField(s: string): Field
    requires IsBare(s)
  {
    if s == "-l" then StartName else Password
  }

  function Tokens(args: seq<string>): Parse {
    if args == [] then Parse([], [], false)
    else if IsBare(args[0]) then
      if |args| == 1 then Parse([], args, true)
      else
        var p := Tokens(args[2..]);
        p.(items := [Separate(BareField(args[0]), args[1])] + p.items)
    else
      var it := Classify(args[0]);
      if it.Debug? then Parse([it], args[1..], false)
      else
        var p := Tokens(args[1..]);
        p.(items := [it] + p.items)
  }

  lemma ClassifyRender(it: Item)
    requires ValidItem(it) && !it.Separate?
    ensures !IsBare(Render(it)[0]) && Classify(Render(it)[0]) == it
  {
    var s := Render(it)[0];
    match it
    case Other(o) =>
    case Flag(a, rest) =>
      assert s[1] == ActionLetter(a) && "-l"[1] == 'l' && "-p"[1] == 'p' && s[2..] == rest;
      match a { case Install => case Remove => case Startup => case End => }
    case Attached(f, v) =>
      assert |s| > 2 && s[1] == FieldLetter(f) && s[2..] == v;
    case Debug(b, rest) =>
      assert "-l"[1] == 'l' && "-p"[1] == 'p' && s[2..] == rest;
      if b { assert s[1] == 'f'; } else { assert s[1] == 'd'; }
  }

  /** An option in front is read as itself. */
  lemma TokensCons(it: Item, rest: seq<string>)
    requires ValidItem(it)
    ensures var p := Tokens(rest);
            Tokens(Render(it) + rest) == if it.Debug? then Parse([it], rest, false) else p.(items := [it] + p.items)
  {
    TakeDropConcat(Render(it), rest);
    if !it.Separate? { ClassifyRender(it); }
  }

  /** Reading a rendered option list gives that list back, whatever follows a debug option at its end. */
  lemma {:induction false} TokensRender(items: seq<Item>, unread: seq<string>)
    requires ValidItems(items) && DebugOnlyLast(items) && (unread != [] ==> EndsInDebug(items))
    ensures Tokens(RenderAll(items) + unread) == Parse(items, unread, false)
    decreases |items|
  {
    if items != [] {
      Assoc(Render(items[0]), RenderAll(items[1..]), unread);
      HeadTail(items);
      TokensCons(items[0], RenderAll(items[1..]) + unread);
      if items[0].Debug? {
        assert items[1..] == [] && RenderAll(items[1..]) == [];
        Empty(unread);
      } else {
        TokensRender(items[1..], unread);
      }
    }
  }

  /** A line in front of which an option stands is that option's rendering and the rest. */
  lemma SplitFirst(args: seq<string>)
    requires args != [] && (IsBare(args[0]) ==> |args| > 1)
    ensures if IsBare(args[0]) then args == Render(Separate(BareField(args[0]), args[1])) + args[2..]
            else args == Render(Classify(args[0])) + args[1..]
  {
    HeadTail(args);
    if IsBare(args[0]) {
      HeadTail(args[1..]);
      Pair(args[0], args[1]);
      Assoc([args[0]], [args[1]], args[2..]);
      assert ['-', FieldLetter(BareField(args[0]))] == args[0];
    }
  }

  /** The line is the rendering of the options read, followed by what was not read: nothing, what stands behind a
  debug option, or one bare value option at the very end. */
  ghost predicate Accounts(args: seq<string>, p: Parse) {
    && ValidItems(p.items) && DebugOnlyLast(p.items)
    && args == RenderAll(p.items) + p.unread
    && (p.bare ==> |p.unread| == 1 && IsBare(p.unread[0]) && !EndsInDebug(p.items))
    && (!p.bare && p.unread != [] ==> EndsInDebug(p.items))
  }

  lemma AccountsCons(it: Item, args: seq<string>, p: Parse)
    requires ValidItem(it) && !it.Debug? && Accounts(args, p)
    ensures Accounts(Render(it) + args, Parse([it] + p.items, p.unread, p.bare))
  {
    ConsRender(it, p.items, p.unread);
  }

  /** Every command line is accounted for by what is read from it. */
  lemma {:induction false} TokensComplete(args: seq<string>)
    ensures Accounts(args, Tokens(args))
    decreases |args|
  {
    if args != [] && (IsBare(args[0]) ==> |args| > 1) {
      SplitFirst(args);
      if IsBare(args[0]) {
        TokensComplete(args[2..]);
        AccountsCons(Separate(BareField(args[0]), args[1]), args[2..], Tokens(args[2..]));
      } else if Classify(args[0]).Debug? {
        ConsRender(Classify(args[0]), [], args[1..]);
        Empty([Classify(args[0])]);
      } else {
        TokensComplete(args[1..]);
        AccountsCons(Classify(args[0]), args[1..], Tokens(args[1..]));
      }
    }
  }

  lemma ConsRender(it: Item, items: seq<Item>, unread: seq<string>)
    requires ValidItem(it) && ValidItems(items)
    ensures ValidItems([it] + items) && RenderAll([it] + items) + unread == Render(it) + (RenderAll(items) + unread)
    ensures !it.Debug? && DebugOnlyLast(items) ==> DebugOnlyLast([it] + items)
    ensures items != [] ==> (EndsInDebug([it] + items) <==> EndsInDebug(items))
  {
    assert ([it] + items)[1..] == items;
  }

  /** The line is that of some options, none of them debug, and of a bare -l or -p behind them. */
  ghost predicate SplitsBare(args: seq<string>, items: seq<Item>, s: string) {
    && ValidItems(items) && DebugOnlyLast(items) && !EndsInDebug(items)
    && IsBare(s) && args == RenderAll(items) + [s]
  }

  /** The line ends in a bare -l or -p not itself taken as a value and not behind a debug option. */
  ghost predicate EndsBare(args: seq<string>) {
    exists items: seq<Item>, s: string :: SplitsBare(args, items, s)
  }

  /** That is what the reader's flag says. */
  lemma BareIff(args: seq<string>)
    ensures Tokens(args).bare <==> EndsBare(args)
  {
    TokensComplete(args);
    var p := Tokens(args);
    if p.bare {
      assert p.unread == [p.unread[0]];
      assert SplitsBare(args, p.items, p.unread[0]);
    }
    forall items: seq<Item>, s: string | SplitsBare(args, items, s) ensures Tokens(args).bare {
      BareTail(items, s);
    }
  }

  /** The lines the argument loop cannot stop on: argv[0] is missing, or a value option at the end takes the
  terminating null pointer as its value and steps over it. */
  ghost predicate RunsPast(argv: seq<string>) {
    argv == [] || EndsBare(argv[1..])
  }

  lemma {:induction false} BareTail(items: seq<Item>, s: string)
    requires ValidItems(items) && DebugOnlyLast(items) && !EndsInDebug(items) && IsBare(s)
    ensures Tokens(RenderAll(items) + [s]) == Parse(items, [s], true)
    decreases |items|
  {
    if items != [] {
      Assoc(Render(items[0]), RenderAll(items[1..]), [s]);
      HeadTail(items);
      assert |items| == 1 ==> !items[0].Debug?;
      TokensCons(items[0], RenderAll(items[1..]) + [s]);
      BareTail(items[1..], s);
    }
  }

  // ----- What the options mean -----

  /** The last action named wins; without one the service is dispatched. */
  function LastAction(items: seq<Item>): Action {
    if items == [] then Dispatch
    else if items[|items| - 1].Flag? then items[|items| - 1].action
    else LastAction(items[..|items| - 1])
  }

  /** The last value given for a field sticks; None if there is none. */
  function LastValue(items: seq<Item>, f: Field): Option<string> {
    if items == [] then None
    else
      var it := items[|items| - 1];
      if (it.Attached? || it.Separate?) && it.field == f then Some(it.value)
      else LastValue(items[..|items| - 1], f)
  }

  /** Item `i` is the last flag, and there is none. */
  ghost predicate LastFlag(items: seq<Item>, i: nat) {
    i < |items| && items[i].Flag? && forall j :: i < j < |items| ==> !items[j].Flag?
  }

  ghost predicate NoFlag(items: seq<Item>) {
    forall i :: 0 <= i < |items| ==> !items[i].Flag?
  }

  lemma {:induction false} LastActionIs(items: seq<Item>)
    ensures NoFlag(items) ==> LastAction(items) == Dispatch
    ensures forall i: nat :: LastFlag(items, i) ==> LastAction(items) == items[i].action
    ensures NoFlag(items) || exists i: nat :: LastFlag(items, i)
    decreases |items|
  {
    if items != [] {
      var k := |items| - 1;
      if items[k].Flag? {
        assert LastFlag(items, k);
      } else {
        LastActionIs(items[..k]);
        forall i: nat ensures LastFlag(items, i) <==> LastFlag(items[..k], i) {
        }
      }
    }
  }

  predicate Gives(it: Item, f: Field) {
    (it.Attached? || it.Separate?) && it.field == f
  }

  /** Item `i` is the last that gives the field a value, and none does. */
  ghost predicate LastGift(items: seq<Item>, i: nat, f: Field) {
    i < |items| && Gives(items[i], f) && forall j :: i < j < |items| ==> !Gives(items[j], f)
  }

  ghost predicate NoGift(items: seq<Item>, f: Field) {
    forall i :: 0 <= i < |items| ==> !Gives(items[i], f)
  }

  lemma LastGiftShorter(items: seq<Item>, i: nat, f: Field)
    requires items != [] && !Gives(items[|items| - 1], f)
    ensures LastGift(items, i, f) <==> LastGift(items[..|items| - 1], i, f)
  {
    var less := items[..|items| - 1];
    assert forall j :: 0 <= j < |less| ==> less[j] == items[j];
    assert LastGift(less, i, f) ==> forall j :: i < j < |items| ==> !Gives(items[j], f);
  }

  /** The value given last sticks. */
  lemma {:induction false} LastValueIs(items: seq<Item>, f: Field)
    ensures NoGift(items, f) ==> LastValue(items, f) == None
    ensures forall i: nat :: LastGift(items, i, f) ==> LastValue(items, f) == Some(items[i].value)
    ensures NoGift(items, f) || exists i: nat :: LastGift(items, i, f)
    decreases |items|
  {
    if items != [] {
      var k := |items| - 1;
      if Gives(items[k], f) {
        assert LastGift(items, k, f);
      } else {
        LastValueIs(items[..k], f);
        forall i: nat ensures LastGift(items, i, f) <==> LastGift(items[..k], i, f) {
          LastGiftShorter(items, i, f);
        }
      }
    }
  }

  /** The calls the options lead to. */
  function Calls(items: seq<Item>, win95: bool): seq<Call> {
    if EndsInDebug(items) then [DebugService(items[|items| - 1].faceless)] else CallsFor(LastAction(items), win95)
  }

  function CallsFor(a: Action, win95: bool): seq<Call> {
    match a
    case Install => [Do(Install), if win95 then DebugService(true) else Do(Startup)]
    case Dispatch => if win95 then [DebugService(true)] else [Do(Dispatch)]
    case _ => [Do(a)]
  }

  /** The calls in terms of the options: a debug option is all there is; an installation is followed by one call, which
  starts the service or, on Windows 95, runs it without a console; no flag dispatches it or, there, runs it so;
  and any other last flag is all that is called. */
  ghost predicate AsAsked(items: seq<Item>, win95: bool, calls: seq<Call>) {
    && (EndsInDebug(items) ==> calls == [DebugService(items[|items| - 1].faceless)])
    && (!EndsInDebug(items) && NoFlag(items) ==> calls == if win95 then [DebugService(true)] else [Do(Dispatch)])
    && forall i: nat :: !EndsInDebug(items) && LastFlag(items, i) ==>
         calls == match items[i].action
                  case Install => [Do(Install), if win95 then DebugService(true) else Do(Startup)]
                  case Remove => [Do(Remove)]
                  case Startup => [Do(Startup)]
                  case _ => [Do(End)]
  }

  lemma CallsByOption(items: seq<Item>, win95: bool)
    requires ValidItems(items)
    ensures AsAsked(items, win95, Calls(items, win95))
  {
    LastActionIs(items);
    forall i: nat | LastFlag(items, i) ensures items[i].action != Dispatch {
      assert ValidItem(items[i]);
    }
  }

  /** What is called at all. */
  lemma WhatIsCalled(items: seq<Item>, win95: bool, b: bool)
    requires ValidItems(items)
    ensures var calls := Calls(items, win95);
            && (Do(Install) in calls <==> !EndsInDebug(items) && LastAction(items) == Install)
            && (Do(Install) in calls ==> calls[0] == Do(Install) && |calls| == 2)
            && (Do(Startup) in calls <==>
                  !EndsInDebug(items) && (LastAction(items) == Startup || (LastAction(items) == Install && !win95)))
            && (Do(Dispatch) in calls <==> !EndsInDebug(items) && NoFlag(items) && !win95)
            && (DebugService(b) in calls <==>
                  if EndsInDebug(items) then b == items[|items| - 1].faceless
                  else b && win95 && (LastAction(items) == Install || NoFlag(items)))
  {
    LastActionIs(items);
    forall i: nat | LastFlag(items, i) ensures items[i].action != Dispatch {
      assert ValidItem(items[i]);
    }
  }

  function Given(v: Option<string>, otherwise: Option<string>): Option<string> {
    if v.Some? then v else otherwise
  }

  /** The field has the value given last, or the one it had. */
  ghost predicate SetTo(items: seq<Item>, f: Field, was: Option<string>, now: Option<string>) {
    && (NoGift(items, f) ==> now == was)
    && (forall i: nat :: LastGift(items, i, f) ==> now == Some(items[i].value))
  }

  lemma GivenIsSet(items: seq<Item>, f: Field, was: Option<string>)
    ensures SetTo(items, f, was, Given(LastValue(items, f), was))
  {
    LastValueIs(items, f);
  }

  lemma OptionsMean(args: seq<string>, win95: bool, startName: Option<string>, password: Option<string>)
    ensures var items := Tokens(args).items;
            && AsAsked(items, win95, Calls(items, win95))
            && SetTo(items, StartName, startName, SettingsOf(items, startName, password).startName)
            && SetTo(items, Password, password, SettingsOf(items, startName, password).password)
  {
    TokensComplete(args);
    CallsByOption(Tokens(args).items, win95);
    GivenIsSet(Tokens(args).items, StartName, startName);
    GivenIsSet(Tokens(args).items, Password, password);
  }

  /** The parser's progress: `done` is read, the arguments from `i` on are still to read. */
  ghost predicate ReadUpTo(argv: seq<string>, i: nat, done: seq<Item>)
    requires 1 <= i <= |argv|
  {
    var whole, more := Tokens(argv[1..]), Tokens(argv[i..]);
    whole == more.(items := done + more.items)
  }

  /** Argument `i` wants a value and is the last. */
  predicate LastIsBare(argv: seq<string>, i: nat)
    requires i < |argv|
  {
    IsBare(argv[i]) && i + 1 == |argv|
  }

  /** The option that starts at argument `i`. */
  function ItemAt(argv: seq<string>, i: nat): (it: Item)
    requires i < |argv| && !LastIsBare(argv, i)
    ensures it.Separate? <==> IsBare(argv[i])
  {
    if IsBare(argv[i]) then Separate(BareField(argv[i]), argv[i + 1]) else Classify(argv[i])
  }

  lemma ReadItem(argv: seq<string>, i: nat, done: seq<Item>)
    requires 1 <= i < |argv| && ReadUpTo(argv, i, done) && !LastIsBare(argv, i)
    ensures var it := ItemAt(argv, i);
            if it.Debug? then Tokens(argv[1..]).items == done + [it] && !Tokens(argv[1..]).bare
            else ReadUpTo(argv, if it.Separate? then i + 2 else i + 1, done + [it])
  {
    assert |argv[i..]| == |argv| - i && argv[i..][0] == argv[i];
    if IsBare(argv[i]) {
      assert argv[i..][2..] == argv[i + 2..];
      Assoc(done, [ItemAt(argv, i)], Tokens(argv[i + 2..]).items);
    } else {
      assert argv[i..][1..] == argv[i + 1..];
      Assoc(done, [ItemAt(argv, i)], Tokens(argv[i + 1..]).items);
    }
  }

  lemma ReadBare(argv: seq<string>, i: nat, done: seq<Item>)
    requires 1 <= i < |argv| && ReadUpTo(argv, i, done) && LastIsBare(argv, i)
    ensures RunsPast(argv)
  {
    assert argv[i..] == [argv[i]];
    BareIff(argv[1..]);
  }

  lemma ReadAll(argv: seq<string>, done: seq<Item>)
    requires 1 <= |argv| && ReadUpTo(argv, |argv|, done)
    ensures Tokens(argv[1..]).items == done && !RunsPast(argv)
  {
    assert argv[|argv|..] == [];
    Empty(done);
    BareIff(argv[1..]);
  }

  /** What the options read so far have set. */
  datatype Settings = Settings(fnc: Action, startName: Option<string>, password: Option<string>)

  function SettingsOf(items: seq<Item>, startName: Option<string>, password: Option<string>): Settings {
    Settings(LastAction(items),
             Given(LastValue(items, StartName), startName),
             Given(LastValue(items, Password), password))
  }

  function Updated(s: Settings, it: Item): Settings {
    match it
    case Flag(a, _) => s.(fnc := a)
    case Attached(f, v) => if f == StartName then s.(startName := Some(v)) else s.(password := Some(v))
    case Separate(f, v) => if f == StartName then s.(startName := Some(v)) else s.(password := Some(v))
    case _ => s
  }

  lemma SettingsSnoc(done: seq<Item>, it: Item, startName: Option<string>, password: Option<string>)
    ensures SettingsOf(done + [it], startName, password) == Updated(SettingsOf(done, startName, password), it)
    ensures EndsInDebug(done + [it]) <==> it.Debug?
  {
    assert (done + [it])[..|done|] == done;
  }

  /** How the argument loop ends. */
  datatype Ending = AtEnd | AtDebug(faceless: bool) | Overran

  function EndingOf(items: seq<Item>): Ending {
    if EndsInDebug(items) then AtDebug(items[|items| - 1].faceless) else AtEnd
  }

  /** The loop's state at argument `i`: the options in `done` are read and have their effect on the fields. */
  ghost predicate Reading(argv: seq<string>, i: nat, done: seq<Item>, was: Settings, now: Settings) {
    && 1 <= i <= |argv| && ReadUpTo(argv, i, done) && !EndsInDebug(done)
    && now == SettingsOf(done, was.startName, was.password)
  }

  /** One turn: the next option is read, or the reading is complete because it is a debug option. */
  lemma ReadOn(argv: seq<string>, i: nat, done: seq<Item>, was: Settings, now: Settings)
    requires i < |argv| && Reading(argv, i, done, was, now) && !LastIsBare(argv, i)
    ensures var it, items := ItemAt(argv, i), Tokens(argv[1..]).items;
            if it.Debug? then
              && !RunsPast(argv) && EndingOf(items) == AtDebug(it.faceless)
              && Updated(now, it) == SettingsOf(items, was.startName, was.password)
            else
              Reading(argv, if IsBare(argv[i]) then i + 2 else i + 1, done + [it], was, Updated(now, it))
  {
    ReadItem(argv, i, done);
    SettingsSnoc(done, ItemAt(argv, i), was.startName, was.password);
    BareIff(argv[1..]);
  }

  class CNTService {
    var startName: Option<string>   // m_pszStartName, None if null
    var password: Option<string>    // m_pszPassword
    var debug: bool                 // m_bDebug

    /** The switch on one argument: `i` and `argc` move on if the next argument is taken as its value; behind the
    last one stands a null pointer. */
    method ReadOption(argv: seq<string>, i: nat, argc: int, fnc: Action)
      returns (i': nat, argc': int, fnc': Action, stop: Option<bool>)
      requires i < |argv| && i + argc == |argv|
      modifies this
      ensures i' == (if IsBare(argv[i]) then i + 1 else i) && i' + argc' == |argv|
      ensures LastIsBare(argv, i) ==> stop == None
      ensures !LastIsBare(argv, i) ==>
                var it := ItemAt(argv, i);
                && stop == (if it.Debug? then Some(it.faceless) else None)
                && Settings(fnc', startName, password) == Updated(Settings(fnc, old(startName), old(password)), it)
                && debug == (old(debug) || it.Debug?)
    {
      i', argc', fnc', stop := i, argc, fnc, None;
      var s := argv[i];
      if |s| < 2 || s[0] != '-' {
        return;
      }
      match s[1]
      case 'i' => fnc' := Install;
      case 'l' =>
        if |s| == 2 {
          argc', i' := argc - 1, i + 1;
          startName := if i' < |argv| then Some(argv[i']) else None;
        } else {
          startName := Some(s[2..]);
        }
      case 'p' =>
        if |s| == 2 {
          argc', i' := argc - 1, i + 1;
          password := if i' < |argv| then Some(argv[i']) else None;
        } else {
          password := Some(s[2..]);
        }
      case 'u' => fnc' := Remove;
      case 's' => fnc' := Startup;
      case 'e' => fnc' := End;
      case 'd' =>
        debug := true;
        stop := Some(false);
      case 'f' =>
        debug := true;
        stop := Some(true);
      case _ =>
    }

    /** What follows the argument loop. */
    method Dispatched(fnc: Action, win95: bool) returns (calls: seq<Call>)
      modifies `debug
      ensures calls == CallsFor(fnc, win95)
      ensures debug == (old(debug) || DebugService(true) in calls)
    {
      if fnc == Install {
        if win95 {
          debug := true;
          return [Do(Install), DebugService(true)];
        }
        return [Do(Install), Do(Startup)];
      }
      if fnc == Dispatch && win95 {
        debug := true;
        return [DebugService(true)];
      }
      calls := [Do(fnc)];
    }

    /** The argument loop.  At every loop head the index and `argc` add up to the number of arguments; if the index
    has passed them by then, `argc` is below 0, the loop goes on and reads past the null pointer. */
    method ReadArguments(argv: seq<string>) returns (fnc: Action, end: Ending)
      modifies this
      ensures end == Overran <==> RunsPast(argv)
      ensures end != Overran ==>
                var items := Tokens(argv[1..]).items;
                && Settings(fnc, startName, password) == SettingsOf(items, old(startName), old(password))
                && end == EndingOf(items)
                && debug == (old(debug) || end.AtDebug?)
    {
      fnc := Dispatch;
      var i: nat, argc := 1, |argv| - 1;
      ghost var done: seq<Item>, was := [], Settings(fnc, startName, password);
      while argc != 0
        invariant 1 <= i && i + argc == |argv|
        invariant i > |argv| ==> RunsPast(argv)
        invariant i <= |argv| ==> Reading(argv, i, done, was, Settings(fnc, startName, password)) && debug == old(debug)
        decreases |argv| - i
      {
        if i >= |argv| {
          return fnc, Overran;
        }
        if LastIsBare(argv, i) {
          ReadBare(argv, i, done);
        } else {
          ReadOn(argv, i, done, was, Settings(fnc, startName, password));
          done := done + [ItemAt(argv, i)];
        }
        var stop;
        i, argc, fnc, stop := ReadOption(argv, i, argc, fnc);
        if stop.Some? {
          return fnc, AtDebug(stop.value);
        }
        i, argc := i + 1, argc - 1;
      }
      ReadAll(argv, done);
      end := AtEnd;
    }

    /** The whole: what the fields are set to and which calls follow; None if the loop runs past the arguments. */
    method RegisterService(argv: seq<string>, win95: bool) returns (calls: Option<seq<Call>>)
      modifies this
      ensures calls == None <==> RunsPast(argv)
      ensures calls.Some? ==>
                var items := Tokens(argv[1..]).items;
                && SetTo(items, StartName, old(startName), startName)
                && SetTo(items, Password, old(password), password)
                && calls.value == Calls(items, win95)
                && AsAsked(items, win95, calls.value)
                && (debug == (old(debug) || exists b :: DebugService(b) in calls.value))
    {
      var fnc, end := ReadArguments(argv);
      if end != Overran {
        OptionsMean(argv[1..], win95, old(startName), old(password));
      }
      match end
      case Overran =>
        calls := None;
      case AtDebug(faceless) =>
        calls := Some([DebugService(faceless)]);
        assert DebugService(faceless) in calls.value;
      case AtEnd =>
        var made := Dispatched(fnc, win95);
        calls := Some(made);
    }
  }
}
