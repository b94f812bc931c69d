/**
 * InputSystem.cpp: a table of key bindings, the action values they set and
 * the callbacks registered per action. Every pass over the bindings is one
 * rule, `Triggered`, saying which binding fires its action and with which
 * value; callbacks are identified by number and their invocations logged.
 */
module Input {
  import opened Wrappers

  /** GLFW key-event actions. */
  const GLFW_RELEASE: int := 0
  const GLFW_PRESS: int := 1
  const GLFW_REPEAT: int := 2

  /** GLFW mouse-button codes, which the bindings share with key codes. */
  const GLFW_MOUSE_BUTTON_LEFT: int := 0
  const GLFW_MOUSE_BUTTON_RIGHT: int := 1
  const GLFW_MOUSE_BUTTON_MIDDLE: int := 2

  /** GLFW key codes the name lookup produces. */
  const GLFW_KEY_UNKNOWN: int := -1
  const GLFW_KEY_SPACE: int := 32
  const GLFW_KEY_A: int := 65
  const GLFW_KEY_ESCAPE: int := 256
  const GLFW_KEY_ENTER: int := 257

  datatype ActionType = Press | Release | Repeat | Continuous | Axis

  datatype InputBinding = InputBinding(key: int, kind: ActionType, action: string, scale: real, active: bool)

  /** A registered callback, known by the order of registration. */
  type CallbackId = nat

  /** One invocation of a callback with an action name and a value. */
  datatype Invocation = Invocation(callback: CallbackId, action: string, value: real)

  /** One triggerAction call. */
  datatype Fire = Fire(action: string, value: real)

  /** What a pass over the bindings reacts to. */
  datatype Event =
    | KeyEvent(key: int, glfwAction: int)
    | Tick(deltaTime: real)
    | MouseMove(deltaX: real, deltaY: real)
    | Scroll(offset: real)

  /**
   * The value a binding triggers its action with on an event, if any: key
   * events fire bindings of that key whose type matches the event, with 1;
   * an update tick fires active CONTINUOUS bindings with deltaTime * scale;
   * mouse motion fires AXIS bindings of the left button with the x delta and
   * of the right button with the y delta; scrolling fires AXIS bindings of
   * the middle button.
   */
  function Triggered(b: InputBinding, e: Event): Option<real> {
    match e
    case KeyEvent(key, act) =>
      if b.key == key &&
         ((act == GLFW_PRESS && b.kind.Press?) || (act == GLFW_RELEASE && b.kind.Release?) ||
          (act == GLFW_REPEAT && b.kind.Repeat?))
      then Some(1.0) else None
    case Tick(dt) =>
      if b.kind.Continuous? && b.active then Some(Scaled(dt, b.scale)) else None
    case MouseMove(dx, dy) =>
      if b.kind.Axis? && b.key == GLFW_MOUSE_BUTTON_LEFT then Some(Scaled(dx, b.scale))
      else if b.kind.Axis? && b.key == GLFW_MOUSE_BUTTON_RIGHT then Some(Scaled(dy, b.scale))
      else None
    case Scroll(offset) =>
      if b.kind.Axis? && b.key == GLFW_MOUSE_BUTTON_MIDDLE then Some(Scaled(offset, b.scale)) else None
  }

  /** A delta times a binding's scale. */
  function Scaled(delta: real, scale: real): real {
    delta * scale
  }

  /** The triggerAction calls of a pass over the first n bindings, in binding order. */
  function FiresUpTo(bs: seq<InputBinding>, e: Event, n: nat): seq<Fire>
    requires n <= |bs|
  {
    if n == 0 then []
    else
      var b := bs[n - 1];
      FiresUpTo(bs, e, n - 1) + (match Triggered(b, e) case Some(v) => [Fire(b.action, v)] case None => [])
  }

  function Fires(bs: seq<InputBinding>, e: Event): seq<Fire> {
    FiresUpTo(bs, e, |bs|)
  }

  /** The action values after a sequence of assignments, later ones overwriting earlier ones. */
  function ValuesAfter(vals: map<string, real>, fires: seq<Fire>): map<string, real> {
    if |fires| == 0 then vals
    else
      var f := fires[|fires| - 1];
      ValuesAfter(vals, fires[..|fires| - 1])[f.action := f.value]
  }

  /** Appending one assignment applies it last. */
  lemma ValuesAfterAppend(vals: map<string, real>, fires: seq<Fire>, f: Fire)
    ensures ValuesAfter(vals, fires + [f]) == ValuesAfter(vals, fires)[f.action := f.value]
  {
    assert (fires + [f])[..|fires|] == fires;
  }

  /** The invocations one triggerAction call makes: that action's callbacks, in registration order. */
  function CallsOf(callbacks: map<string, seq<CallbackId>>, f: Fire): seq<Invocation> {
    if f.action in callbacks then Invocations(callbacks[f.action], f) else []
  }

  /**
   * A triggerAction call invokes nothing for an action without callbacks,
   * and otherwise each of its callbacks once, in registration order, with
   * the action and the value.
   */
  lemma CallsOfInvokesEachOnce(callbacks: map<string, seq<CallbackId>>, f: Fire)
    ensures f.action !in callbacks ==> CallsOf(callbacks, f) == []
    ensures f.action in callbacks ==>
      (|CallsOf(callbacks, f)| == |callbacks[f.action]| &&
       forall i :: 0 <= i < |callbacks[f.action]| ==>
         CallsOf(callbacks, f)[i] == Invocation(callbacks[f.action][i], f.action, f.value))
  {
    if f.action in callbacks {
      InvocationsInOrder(callbacks[f.action], f);
    }
  }

  lemma {:induction false} InvocationsInOrder(ids: seq<CallbackId>, f: Fire)
    ensures |Invocations(ids, f)| == |ids|
    ensures forall i :: 0 <= i < |ids| ==> Invocations(ids, f)[i] == Invocation(ids[i], f.action, f.value)
  {
    if |ids| > 0 {
      InvocationsInOrder(ids[..|ids| - 1], f);
    }
  }

  function Invocations(ids: seq<CallbackId>, f: Fire): seq<Invocation> {
    if |ids| == 0 then [] else Invocations(ids[..|ids| - 1], f) + [Invocation(ids[|ids| - 1], f.action, f.value)]
  }

  /** The invocations a sequence of triggerAction calls makes, in order. */
  function CallsFor(callbacks: map<string, seq<CallbackId>>, fires: seq<Fire>): seq<Invocation> {
    if |fires| == 0 then []
    else CallsFor(callbacks, fires[..|fires| - 1]) + CallsOf(callbacks, fires[|fires| - 1])
  }

  /** Appending one triggerAction call appends its invocations. */
  lemma CallsForAppend(callbacks: map<string, seq<CallbackId>>, fires: seq<Fire>, f: Fire)
    ensures CallsFor(callbacks, fires + [f]) == CallsFor(callbacks, fires) + CallsOf(callbacks, f)
  {
    assert (fires + [f])[..|fires|] == fires;
  }

  /** A binding that does not fire on the event leaves the pass's effect as it was. */
  lemma PassStepSilent(vals: map<string, real>, callbacks: map<string, seq<CallbackId>>, bs: seq<InputBinding>, e: Event, n: nat)
    requires n < |bs| && Triggered(bs[n], e).None?
    ensures ValuesAfter(vals, FiresUpTo(bs, e, n + 1)) == ValuesAfter(vals, FiresUpTo(bs, e, n))
    ensures CallsFor(callbacks, FiresUpTo(bs, e, n + 1)) == CallsFor(callbacks, FiresUpTo(bs, e, n))
  {
    assert FiresUpTo(bs, e, n + 1) == FiresUpTo(bs, e, n);
  }

  /** The action values after binding n's triggerAction call are the pass's values over n + 1 bindings. */
  lemma FireAssigns(vals: map<string, real>, bs: seq<InputBinding>, e: Event, n: nat, f: Fire, values: map<string, real>)
    requires n < |bs| && Triggered(bs[n], e) == Some(f.value) && f.action == bs[n].action
    requires values == ValuesAfter(vals, FiresUpTo(bs, e, n))[f.action := f.value]
    ensures values == ValuesAfter(vals, FiresUpTo(bs, e, n + 1))
  {
    assert FiresUpTo(bs, e, n + 1) == FiresUpTo(bs, e, n) + [f];
    ValuesAfterAppend(vals, FiresUpTo(bs, e, n), f);
  }

  /** The log after binding n's triggerAction call holds the pass's invocations over n + 1 bindings. */
  lemma FireInvokes(callbacks: map<string, seq<CallbackId>>, bs: seq<InputBinding>, e: Event, n: nat, f: Fire,
                    log: seq<Invocation>, before: seq<Invocation>, after: seq<Invocation>)
    requires n < |bs| && Triggered(bs[n], e) == Some(f.value) && f.action == bs[n].action
    requires before == log + CallsFor(callbacks, FiresUpTo(bs, e, n))
    requires after == before + CallsOf(callbacks, f)
    ensures after == log + CallsFor(callbacks, FiresUpTo(bs, e, n + 1))
  {
    assert FiresUpTo(bs, e, n + 1) == FiresUpTo(bs, e, n) + [f];
    CallsForAppend(callbacks, FiresUpTo(bs, e, n), f);
    AppendRegroups(log, CallsFor(callbacks, FiresUpTo(bs, e, n)), CallsOf(callbacks, f), CallsFor(callbacks, FiresUpTo(bs, e, n + 1)));
  }

  /** Appending to a log in two steps appends the two parts' concatenation. */
  lemma AppendRegroups<T>(log: seq<T>, first: seq<T>, second: seq<T>, both: seq<T>)
    requires both == first + second
    ensures log + first + second == log + both
  {
  }

  /** `getActionValue`: the stored value, 0 for an action never set. */
  function ActionValue(vals: map<string, real>, action: string): real {
    if action in vals then vals[action] else 0.0
  }

  /** `isActionActive`: a value is stored and it is not zero. */
  function ActionActive(vals: map<string, real>, action: string): (r: bool)
    ensures r <==> ActionValue(vals, action) != 0.0
  {
    action in vals && vals[action] != 0.0
  }

  /** The value of the last assignment to an action, if there is one. */
  function LastValue(fires: seq<Fire>, action: string): Option<real> {
    if |fires| == 0 then None
    else if fires[|fires| - 1].action == action then Some(fires[|fires| - 1].value)
    else LastValue(fires[..|fires| - 1], action)
  }

  /**
   * After a sequence of assignments an action holds the value of the last
   * one made to it, and keeps its earlier value (or absence) when none was.
   */
  lemma {:induction false} LastAssignmentWins(vals: map<string, real>, fires: seq<Fire>, action: string)
    ensures LastValue(fires, action).Some? ==>
      action in ValuesAfter(vals, fires) && ValuesAfter(vals, fires)[action] == LastValue(fires, action).value
    ensures LastValue(fires, action).None? ==>
      (action in ValuesAfter(vals, fires) <==> action in vals) &&
      (action in vals ==> ValuesAfter(vals, fires)[action] == vals[action])
  {
    if |fires| > 0 {
      LastAssignmentWins(vals, fires[..|fires| - 1], action);
    }
  }

  /** A key event's effect on one binding: PRESS activates it, RELEASE deactivates it, REPEAT leaves it. */
  function AfterKey(b: InputBinding, key: int, act: int): InputBinding {
    if b.key != key then b
    else if act == GLFW_PRESS then b.(active := true)
    else if act == GLFW_RELEASE then b.(active := false)
    else b
  }

  /** A key event's effect on the whole table. */
  function KeyApplied(bs: seq<InputBinding>, key: int, act: int): (r: seq<InputBinding>)
    ensures |r| == |bs|
    ensures forall i :: 0 <= i < |bs| ==> r[i] == AfterKey(bs[i], key, act)
  {
    seq(|bs|, i requires 0 <= i < |bs| => AfterKey(bs[i], key, act))
  }

  /**
   * A key event changes only the bindings of its key, and only their
   * `active` flag: set by PRESS, cleared by RELEASE, kept by REPEAT.
   */
  lemma KeyEventTouchesOnlyItsKey(bs: seq<InputBinding>, key: int, act: int, i: nat)
    requires i < |bs|
    ensures bs[i].key != key ==> KeyApplied(bs, key, act)[i] == bs[i]
    ensures KeyApplied(bs, key, act)[i] == bs[i].(active := KeyApplied(bs, key, act)[i].active)
    ensures bs[i].key == key && act == GLFW_PRESS ==> KeyApplied(bs, key, act)[i].active
    ensures bs[i].key == key && act == GLFW_RELEASE ==> !KeyApplied(bs, key, act)[i].active
    ensures act != GLFW_PRESS && act != GLFW_RELEASE ==> KeyApplied(bs, key, act)[i] == bs[i]
  {
  }

  /** Every fire of a key event carries the value 1. */
  lemma {:induction false} KeyFiresAreOne(bs: seq<InputBinding>, key: int, act: int, n: nat)
    requires n <= |bs|
    ensures forall j :: 0 <= j < |FiresUpTo(bs, KeyEvent(key, act), n)| ==> FiresUpTo(bs, KeyEvent(key, act), n)[j].value == 1.0
  {
    if n > 0 {
      KeyFiresAreOne(bs, key, act, n - 1);
    }
  }

  /** The last value of an action is one of the values fired. */
  lemma {:induction false} LastValueIsFired(fires: seq<Fire>, action: string)
    ensures LastValue(fires, action).Some? ==> exists j :: 0 <= j < |fires| && fires[j].value == LastValue(fires, action).value
  {
    if |fires| > 0 && fires[|fires| - 1].action != action {
      LastValueIsFired(fires[..|fires| - 1], action);
      if LastValue(fires, action).Some? {
        var j :| 0 <= j < |fires| - 1 && fires[..|fires| - 1][j].value == LastValue(fires, action).value;
        assert fires[j].value == LastValue(fires, action).value;
      }
    }
  }

  /** A binding that fires puts its action among the fires of the pass. */
  lemma {:induction false} FiringBindingAssigns(bs: seq<InputBinding>, e: Event, n: nat, i: nat)
    requires i < n <= |bs| && Triggered(bs[i], e).Some?
    ensures LastValue(FiresUpTo(bs, e, n), bs[i].action).Some?
  {
    var b := bs[n - 1];
    var fires := FiresUpTo(bs, e, n);
    if i < n - 1 {
      FiringBindingAssigns(bs, e, n - 1, i);
      if Triggered(b, e).Some? && b.action != bs[i].action {
        assert fires[..|fires| - 1] == FiresUpTo(bs, e, n - 1);
      } else if Triggered(b, e).None? {
        assert fires == FiresUpTo(bs, e, n - 1);
      }
    }
  }

  /**
   * After pressing a key, the action of every PRESS binding of that key is
   * active: it holds 1, whatever else the event assigned.
   */
  lemma PressActivatesAction(vals: map<string, real>, bs: seq<InputBinding>, key: int, i: nat)
    requires i < |bs| && bs[i].key == key && bs[i].kind.Press?
    ensures ActionValue(ValuesAfter(vals, Fires(bs, KeyEvent(key, GLFW_PRESS))), bs[i].action) == 1.0
    ensures ActionActive(ValuesAfter(vals, Fires(bs, KeyEvent(key, GLFW_PRESS))), bs[i].action)
  {
    var fires := Fires(bs, KeyEvent(key, GLFW_PRESS));
    FiringBindingAssigns(bs, KeyEvent(key, GLFW_PRESS), |bs|, i);
    LastValueIsFired(fires, bs[i].action);
    KeyFiresAreOne(bs, key, GLFW_PRESS, |bs|);
    LastAssignmentWins(vals, fires, bs[i].action);
  }

  /** The assignments of the AXIS refresh: each AXIS binding's action gets its scale when active, else 0. */
  function AxisRefreshUpTo(bs: seq<InputBinding>, n: nat): seq<Fire>
    requires n <= |bs|
  {
    if n == 0 then []
    else
      var b := bs[n - 1];
      AxisRefreshUpTo(bs, n - 1) + (if b.kind.Axis? then [Fire(b.action, if b.active then b.scale else 0.0)] else [])
  }

  /** The last AXIS binding of an action, before position n. */
  function LastAxisBinding(bs: seq<InputBinding>, action: string, n: nat): Option<InputBinding>
    requires n <= |bs|
  {
    if n == 0 then None
    else if bs[n - 1].kind.Axis? && bs[n - 1].action == action then Some(bs[n - 1])
    else LastAxisBinding(bs, action, n - 1)
  }

  /** The refresh assigns an action exactly the value of its last AXIS binding. */
  lemma {:induction false} AxisRefreshLastWins(bs: seq<InputBinding>, action: string, n: nat)
    requires n <= |bs|
    ensures LastValue(AxisRefreshUpTo(bs, n), action) ==
      match LastAxisBinding(bs, action, n)
      case None => None
      case Some(b) => Some(if b.active then b.scale else 0.0)
  {
    if n > 0 {
      var fires := AxisRefreshUpTo(bs, n);
      AxisRefreshLastWins(bs, action, n - 1);
      if bs[n - 1].kind.Axis? {
        assert fires[..|fires| - 1] == AxisRefreshUpTo(bs, n - 1);
      } else {
        assert fires == AxisRefreshUpTo(bs, n - 1);
      }
    }
  }

  /**
   * After the refresh, an action with an AXIS binding holds the value of its
   * last AXIS binding, whatever it held before (so the CONTINUOUS pass that
   * precedes it in `update` cannot show through).
   */
  lemma AxisLastBindingWins(vals: map<string, real>, bs: seq<InputBinding>, action: string)
    requires LastAxisBinding(bs, action, |bs|).Some?
    ensures var b := LastAxisBinding(bs, action, |bs|).value;
      ActionValue(ValuesAfter(vals, AxisRefreshUpTo(bs, |bs|)), action) == if b.active then b.scale else 0.0
  {
    AxisRefreshLastWins(bs, action, |bs|);
    LastAssignmentWins(vals, AxisRefreshUpTo(bs, |bs|), action);
  }

  /** Some binding before position n has the key, the action, and a type matching the event. */
  ghost predicate FiredByMatching(bs: seq<InputBinding>, key: int, act: int, n: nat, action: string)
    requires n <= |bs|
  {
    exists i :: 0 <= i < n && bs[i].key == key && bs[i].action == action && Triggered(bs[i], KeyEvent(key, act)).Some?
  }

  /**
   * Every triggerAction call of a key event comes from a binding of that key
   * whose type matches the event.
   */
  lemma {:induction false} KeyFiresComeFromMatchingBindings(bs: seq<InputBinding>, key: int, act: int, n: nat)
    requires n <= |bs|
    ensures forall j :: 0 <= j < |FiresUpTo(bs, KeyEvent(key, act), n)| ==>
      FiredByMatching(bs, key, act, n, FiresUpTo(bs, KeyEvent(key, act), n)[j].action)
  {
    if n > 0 {
      var e := KeyEvent(key, act);
      KeyFiresComeFromMatchingBindings(bs, key, act, n - 1);
      var prev := FiresUpTo(bs, e, n - 1);
      var fires := FiresUpTo(bs, e, n);
      forall j | 0 <= j < |fires|
        ensures FiredByMatching(bs, key, act, n, fires[j].action)
      {
        if j < |prev| {
          assert fires[j] == prev[j];
          assert FiredByMatching(bs, key, act, n - 1, prev[j].action);
          var i :| 0 <= i < n - 1 && bs[i].key == key && bs[i].action == prev[j].action && Triggered(bs[i], e).Some?;
        } else {
          assert Triggered(bs[n - 1], e).Some? && fires[j].action == bs[n - 1].action;
        }
      }
    }
  }

  /**
   * `removeBinding`'s erase-remove: keep, in order, the bindings that do not
   * match both the action and the key.
   */
  function Without(bs: seq<InputBinding>, action: string, key: int): (r: seq<InputBinding>)
    ensures forall b :: b in r <==> b in bs && !(b.action == action && b.key == key)
    ensures |r| <= |bs|
  {
    if |bs| == 0 then []
    else
      var rest := Without(bs[..|bs| - 1], action, key);
      var b := bs[|bs| - 1];
      assert forall c :: c in bs <==> c in bs[..|bs| - 1] || c == b;
      if b.action == action && b.key == key then rest else rest + [b]
  }

  /** Removing twice removes nothing more, and a table without a match is left as it is. */
  lemma {:induction false} WithoutUnmatchedIsIdentity(bs: seq<InputBinding>, action: string, key: int)
    requires forall b :: b in bs ==> !(b.action == action && b.key == key)
    ensures Without(bs, action, key) == bs
  {
    if |bs| > 0 {
      var init, last := bs[..|bs| - 1], bs[|bs| - 1];
      assert forall b :: b in init ==> b in bs;
      WithoutUnmatchedIsIdentity(init, action, key);
      assert last in bs;
      assert init + [last] == bs;
    }
  }

  /**
   * Removal keeps the order of what it keeps: it works piece by piece over
   * a concatenation, a single binding being kept exactly when it does not match.
   */
  lemma {:induction false} WithoutKeepsOrder(bs: seq<InputBinding>, cs: seq<InputBinding>, action: string, key: int)
    ensures Without(bs + cs, action, key) == Without(bs, action, key) + Without(cs, action, key)
    decreases |cs|
  {
    if |cs| == 0 {
      assert bs + cs == bs;
    } else {
      var last := cs[|cs| - 1];
      assert (bs + cs)[..|bs + cs| - 1] == bs + cs[..|cs| - 1];
      WithoutKeepsOrder(bs, cs[..|cs| - 1], action, key);
    }
  }

  lemma WithoutIsIdempotent(bs: seq<InputBinding>, action: string, key: int)
    ensures Without(Without(bs, action, key), action, key) == Without(bs, action, key)
  {
    WithoutUnmatchedIsIdentity(Without(bs, action, key), action, key);
  }

  /** A byte of a C string. */
  type Byte = b: int | 0 <= b < 256

  /** The bytes of an ASCII string. */
  function Ascii(s: string): (bs: seq<Byte>)
    requires forall i :: 0 <= i < |s| ==> s[i] < 128 as char
    ensures |bs| == |s| && forall i :: 0 <= i < |s| ==> bs[i] == s[i] as int
  {
    if s == [] then [] else [s[0] as int] + Ascii(s[1..])
  }

  /** What `strlen` and `strcmp` see of a character array: the bytes before its first NUL. */
  function CString(bs: seq<Byte>): (s: seq<Byte>)
    ensures |s| <= |bs| && s == bs[..|s|]
    ensures forall i :: 0 <= i < |s| ==> s[i] != 0
    ensures |s| < |bs| ==> bs[|s|] == 0
  {
    if bs == [] || bs[0] == 0 then [] else [bs[0]] + CString(bs[1..])
  }

  /** The value of a byte read as a `char`, which is signed on the x86-64 targets the engine builds for. */
  function CharValue(b: Byte): (c: int)
    ensures -128 <= c < 128 && (c - b) % 256 == 0
    ensures b < 128 ==> c == b
  {
    if b < 128 then b else b - 256
  }

  /**
   * `toupper` in the C locale, on a `char` value: the ASCII lower-case
   * letters move up by 32, everything else (glibc's table included, for
   * negative values) stays.
   */
  function UpperCase(c: int): (u: int)
    ensures 'a' as int <= c <= 'z' as int ==> u == c - 32 && 'A' as int <= u <= 'Z' as int
    ensures !('a' as int <= c <= 'z' as int) ==> u == c
  {
    if 'a' as int <= c <= 'z' as int then c - 32 else c
  }

  /** The names `getKeyFromName` reads as words rather than as a single character. */
  function KeyWords(): (ws: set<seq<Byte>>)
    ensures forall w :: w in ws ==> |w| > 1
  {
    {Ascii("space"), Ascii("escape"), Ascii("enter")}
  }

  /** `getKeyFromName`, with `name` None for a null pointer and otherwise the bytes it points at. */
  function KeyFromName(name: Option<seq<Byte>>): (k: int)
    ensures name.None? ==> k == GLFW_KEY_UNKNOWN
    ensures name.Some? && |CString(name.value)| == 1 ==> k == UpperCase(CharValue(CString(name.value)[0]))
    ensures name.Some? && |CString(name.value)| != 1 && CString(name.value) !in KeyWords() ==> k == GLFW_KEY_UNKNOWN
  {
    if name.None? then GLFW_KEY_UNKNOWN
    else
      var s := CString(name.value);
      if s == Ascii("space") then GLFW_KEY_SPACE
      else if s == Ascii("escape") then GLFW_KEY_ESCAPE
      else if s == Ascii("enter") then GLFW_KEY_ENTER
      else if |s| == 1 then UpperCase(CharValue(s[0]))
      else GLFW_KEY_UNKNOWN
  }

  /** Both cases of a letter name its GLFW key, GLFW_KEY_A onwards. */
  lemma LetterNamesResolve(c: char)
    requires 'a' <= c <= 'z'
    ensures KeyFromName(Some([c as int])) == KeyFromName(Some([c as int - 32])) == GLFW_KEY_A + (c as int - 'a' as int)
  {
    assert CString([c as int]) == [c as int];
    assert CString([c as int - 32]) == [c as int - 32];
  }

  /** The three word names map to their keys whatever follows their terminating NUL. */
  lemma WordNamesResolve(tail: seq<Byte>)
    ensures KeyFromName(Some(Ascii("space") + [0] + tail)) == GLFW_KEY_SPACE
    ensures KeyFromName(Some(Ascii("escape") + [0] + tail)) == GLFW_KEY_ESCAPE
    ensures KeyFromName(Some(Ascii("enter") + [0] + tail)) == GLFW_KEY_ENTER
  {
    TerminatedPrefix(Ascii("space"), tail);
    TerminatedPrefix(Ascii("escape"), tail);
    TerminatedPrefix(Ascii("enter"), tail);
  }

  /**
   * A letter outside ASCII, two bytes in UTF-8 (here "ä"), is unknown, as is
   * any other name whose length is not one byte and which is not a word name.
   */
  lemma OtherNamesUnknown(word: seq<Byte>)
    requires |CString(word)| != 1 && CString(word) !in KeyWords()
    ensures KeyFromName(Some([0xC3, 0xA4])) == GLFW_KEY_UNKNOWN
    ensures KeyFromName(Some(word)) == GLFW_KEY_UNKNOWN
  {
    assert CString([0xC3, 0xA4]) == [0xC3, 0xA4];
  }

  /** A NUL-free prefix followed by a NUL is exactly what the C string functions see. */
  lemma {:induction false} TerminatedPrefix(s: seq<Byte>, tail: seq<Byte>)
    requires forall i :: 0 <= i < |s| ==> s[i] != 0
    ensures CString(s + [0] + tail) == s
  {
    var bs := s + [0] + tail;
    if s == [] {
      assert bs[0] == 0;
    } else {
      assert bs[1..] == s[1..] + [0] + tail;
      TerminatedPrefix(s[1..], tail);
    }
  }

  /** Window::MouseButton; any other value is ignored. */
  datatype MouseButton = Left | Right | Middle | Other(code: int)

  /** The binding key a mouse button event uses, if any. */
  function ButtonKey(button: MouseButton): Option<int> {
    match button
    case Left => Some(GLFW_MOUSE_BUTTON_LEFT)
    case Right => Some(GLFW_MOUSE_BUTTON_RIGHT)
    case Middle => Some(GLFW_MOUSE_BUTTON_MIDDLE)
    case Other(_) => None
  }

  /** `InputSystem`: bindings, registered callbacks, action values and mouse position. */
  class InputSystem {
    var bindings: seq<InputBinding>
    var callbacks: map<string, seq<CallbackId>>
    var actionValues: map<string, real>
    var lastMouseX: real
    var lastMouseY: real
    var mouseX: real
    var mouseY: real
    /** Every callback invocation so far, in order. */
    ghost var invoked: seq<Invocation>

    constructor ()
      ensures bindings == [] && callbacks == map[] && actionValues == map[] && invoked == []
      ensures lastMouseX == 0.0 && lastMouseY == 0.0 && mouseX == 0.0 && mouseY == 0.0
    {
      bindings := [];
      callbacks := map[];
      actionValues := map[];
      lastMouseX, lastMouseY, mouseX, mouseY := 0.0, 0.0, 0.0, 0.0;
      invoked := [];
    }

    /** `addBinding`: append one inactive binding. */
    method AddBinding(action: string, key: int, kind: ActionType, scale: real)
      modifies this`bindings
      ensures bindings == old(bindings) + [InputBinding(key, kind, action, scale, false)]
    {
      bindings := bindings + [InputBinding(key, kind, action, scale, false)];
    }

    /** `removeBinding`: erase every binding of that action and key, keeping the order of the rest. */
    method RemoveBinding(action: string, key: int)
      modifies this`bindings
      ensures bindings == Without(old(bindings), action, key)
    {
      var kept: seq<InputBinding> := [];
      var i := 0;
      while i < |bindings|
        invariant 0 <= i <= |bindings| && bindings == old(bindings)
        invariant kept == Without(bindings[..i], action, key)
      {
        assert bindings[..i + 1][..i] == bindings[..i];
        if !(bindings[i].action == action && bindings[i].key == key) {
          kept := kept + [bindings[i]];
        }
        i := i + 1;
      }
      assert bindings[..i] == bindings;
      bindings := kept;
    }

    /** `clearBindings`: no bindings and no action values; the callbacks stay. */
    method ClearBindings()
      modifies this`bindings, this`actionValues
      ensures bindings == [] && actionValues == map[] && callbacks == old(callbacks)
    {
      bindings := [];
      actionValues := map[];
    }

    /** `addActionCallback`: register one more callback for the action, after the earlier ones. */
    method AddActionCallback(action: string, callback: CallbackId)
      modifies this`callbacks
      ensures callbacks == old(callbacks)[action := (if action in old(callbacks) then old(callbacks)[action] else []) + [callback]]
    {
      var registered := if action in callbacks then callbacks[action] else [];
      callbacks := callbacks[action := registered + [callback]];
    }

    /** `removeActionCallback`: drop every callback of the action. */
    method RemoveActionCallback(action: string)
      modifies this`callbacks
      ensures callbacks == old(callbacks) - {action}
    {
      callbacks := callbacks - {action};
    }

    /** `clearActionCallbacks`. */
    method ClearActionCallbacks()
      modifies this`callbacks
      ensures callbacks == map[]
    {
      callbacks := map[];
    }

    /** `triggerAction`: store the value, then invoke the action's callbacks in registration order. */
    method TriggerAction(action: string, value: real)
      modifies this`actionValues, this`invoked
      ensures actionValues == old(actionValues)[action := value]
      ensures invoked == old(invoked) + CallsOf(callbacks, Fire(action, value))
    {
      actionValues := actionValues[action := value];
      if action in callbacks {
        var ids := callbacks[action];
        var i := 0;
        while i < |ids|
          invariant 0 <= i <= |ids|
          invariant actionValues == old(actionValues)[action := value]
          invariant invoked == old(invoked) + Invocations(ids[..i], Fire(action, value))
        {
          invoked := invoked + [Invocation(ids[i], action, value)];
          assert ids[..i + 1][..i] == ids[..i];
          i := i + 1;
        }
        assert ids[..i] == ids;
      }
    }

    /**
     * The turn of binding i in a pass: trigger its action if it fires on the
     * event, which extends the pass's effect from i bindings to i + 1.
     */
    method FireBinding(bs: seq<InputBinding>, e: Event, i: nat, ghost vals: map<string, real>, ghost log: seq<Invocation>)
      requires i < |bs|
      requires actionValues == ValuesAfter(vals, FiresUpTo(bs, e, i))
      requires invoked == log + CallsFor(callbacks, FiresUpTo(bs, e, i))
      modifies this`actionValues, this`invoked
      ensures actionValues == ValuesAfter(vals, FiresUpTo(bs, e, i + 1))
      ensures invoked == log + CallsFor(callbacks, FiresUpTo(bs, e, i + 1))
    {
      var fired := Triggered(bs[i], e);
      if fired.Some? {
        ApplyFire(bs, e, i, Fire(bs[i].action, fired.value), vals, log);
      } else {
        PassStepSilent(vals, callbacks, bs, e, i);
      }
    }

    /** Binding i fires with f: triggering f extends the pass's effect to i + 1 bindings. */
    method ApplyFire(bs: seq<InputBinding>, e: Event, i: nat, f: Fire, ghost vals: map<string, real>, ghost log: seq<Invocation>)
      requires i < |bs| && Triggered(bs[i], e) == Some(f.value) && f.action == bs[i].action
      requires actionValues == ValuesAfter(vals, FiresUpTo(bs, e, i))
      requires invoked == log + CallsFor(callbacks, FiresUpTo(bs, e, i))
      modifies this`actionValues, this`invoked
      ensures actionValues == ValuesAfter(vals, FiresUpTo(bs, e, i + 1))
      ensures invoked == log + CallsFor(callbacks, FiresUpTo(bs, e, i + 1))
    {
      ghost var before := invoked;
      TriggerAction(f.action, f.value);
      FireAssigns(vals, bs, e, i, f, actionValues);
      FireInvokes(callbacks, bs, e, i, f, log, before, invoked);
    }

    /**
     * The passes that only trigger (update's CONTINUOUS pass, mouse motion,
     * scrolling): every binding that fires triggers its action, in binding
     * order.
     */
    method TriggerPass(e: Event)
      requires !e.KeyEvent?
      modifies this`actionValues, this`invoked
      ensures actionValues == ValuesAfter(old(actionValues), Fires(bindings, e))
      ensures invoked == old(invoked) + CallsFor(callbacks, Fires(bindings, e))
    {
      var bs, cbs := bindings, callbacks;
      ghost var vals, log := actionValues, invoked;
      var i := 0;
      while i < |bs|
        invariant 0 <= i <= |bs|
        invariant bindings == bs && callbacks == cbs
        invariant actionValues == ValuesAfter(vals, FiresUpTo(bs, e, i))
        invariant invoked == log + CallsFor(cbs, FiresUpTo(bs, e, i))
      {
        FireBinding(bs, e, i, vals, log);
        i := i + 1;
      }
    }

    /**
     * `handleKeyEvent`: for each binding of the key, update `active` as the
     * event says, then trigger it when its type matches the event.
     */
    method HandleKeyEvent(key: int, act: int)
      modifies this`bindings, this`actionValues, this`invoked
      ensures bindings == KeyApplied(old(bindings), key, act)
      ensures actionValues == ValuesAfter(old(actionValues), Fires(old(bindings), KeyEvent(key, act)))
      ensures invoked == old(invoked) + CallsFor(callbacks, Fires(old(bindings), KeyEvent(key, act)))
    {
      var bs := bindings;
      var e := KeyEvent(key, act);
      var i := 0;
      while i < |bindings|
        invariant 0 <= i <= |bindings| == |bs|
        invariant forall j :: 0 <= j < i ==> bindings[j] == AfterKey(bs[j], key, act)
        invariant forall j :: i <= j < |bs| ==> bindings[j] == bs[j]
        invariant actionValues == ValuesAfter(old(actionValues), FiresUpTo(bs, e, i))
        invariant invoked == old(invoked) + CallsFor(callbacks, FiresUpTo(bs, e, i))
      {
        var b := bindings[i];
        bindings := bindings[i := AfterKey(b, key, act)];
        FireBinding(bs, e, i, old(actionValues), old(invoked));
        i := i + 1;
      }
    }

    /** `updateAxisValues`: each AXIS binding sets its action to its scale when active, else 0; no callbacks. */
    method UpdateAxisValues()
      modifies this`actionValues
      ensures actionValues == ValuesAfter(old(actionValues), AxisRefreshUpTo(bindings, |bindings|))
    {
      var i := 0;
      while i < |bindings|
        invariant 0 <= i <= |bindings|
        invariant actionValues == ValuesAfter(old(actionValues), AxisRefreshUpTo(bindings, i))
      {
        var b := bindings[i];
        if b.kind.Axis? {
          var f := Fire(b.action, if b.active then b.scale else 0.0);
          actionValues := actionValues[b.action := f.value];
          assert AxisRefreshUpTo(bindings, i + 1) == AxisRefreshUpTo(bindings, i) + [f];
          ValuesAfterAppend(old(actionValues), AxisRefreshUpTo(bindings, i), f);
        } else {
          assert AxisRefreshUpTo(bindings, i + 1) == AxisRefreshUpTo(bindings, i);
        }
        i := i + 1;
      }
    }

    /** `update`: the CONTINUOUS pass, then the AXIS refresh. */
    method Update(deltaTime: real)
      modifies this`actionValues, this`invoked
      ensures actionValues ==
        ValuesAfter(ValuesAfter(old(actionValues), Fires(bindings, Tick(deltaTime))), AxisRefreshUpTo(bindings, |bindings|))
      ensures invoked == old(invoked) + CallsFor(callbacks, Fires(bindings, Tick(deltaTime)))
    {
      TriggerPass(Tick(deltaTime));
      UpdateAxisValues();
    }

    /** `handleMouseButton`: a button press or release is a key event on the button's code. */
    method HandleMouseButton(button: MouseButton, pressed: bool)
      modifies this`bindings, this`actionValues, this`invoked
      ensures ButtonKey(button).None? ==>
        bindings == old(bindings) && actionValues == old(actionValues) && invoked == old(invoked)
      ensures ButtonKey(button).Some? ==>
        var e := KeyEvent(ButtonKey(button).value, if pressed then GLFW_PRESS else GLFW_RELEASE);
        bindings == KeyApplied(old(bindings), e.key, e.glfwAction) &&
        actionValues == ValuesAfter(old(actionValues), Fires(old(bindings), e)) &&
        invoked == old(invoked) + CallsFor(callbacks, Fires(old(bindings), e))
    {
      var key := ButtonKey(button);
      if key.None? {
        return;
      }
      HandleKeyEvent(key.value, if pressed then GLFW_PRESS else GLFW_RELEASE);
    }

    /** `handleMouseMove`: record the position and fire the mouse-axis bindings with the deltas. */
    method HandleMouseMove(x: real, y: real)
      modifies this`mouseX, this`mouseY, this`lastMouseX, this`lastMouseY, this`actionValues, this`invoked
      ensures mouseX == x && mouseY == y && lastMouseX == x && lastMouseY == y
      ensures actionValues ==
        ValuesAfter(old(actionValues), Fires(bindings, MouseMove(x - old(lastMouseX), y - old(lastMouseY))))
      ensures invoked == old(invoked) + CallsFor(callbacks, Fires(bindings, MouseMove(x - old(lastMouseX), y - old(lastMouseY))))
    {
      mouseX := x;
      mouseY := y;
      var deltaX := x - lastMouseX;
      var deltaY := y - lastMouseY;
      lastMouseX := x;
      lastMouseY := y;
      TriggerPass(MouseMove(deltaX, deltaY));
    }

    /** `handleMouseScroll`: fire the middle-button AXIS bindings with the offset. */
    method HandleMouseScroll(offset: real)
      modifies this`actionValues, this`invoked
      ensures actionValues == ValuesAfter(old(actionValues), Fires(bindings, Scroll(offset)))
      ensures invoked == old(invoked) + CallsFor(callbacks, Fires(bindings, Scroll(offset)))
    {
      TriggerPass(Scroll(offset));
    }

    /** `isActionActive`. */
    function IsActionActive(action: string): (r: bool)
      reads this
      ensures r <==> GetActionValue(action) != 0.0
    {
      ActionActive(actionValues, action)
    }

    /** `getActionValue`. */
    function GetActionValue(action: string): (r: real)
      reads this
      ensures action in actionValues ==> r == actionValues[action]
      ensures action !in actionValues ==> r == 0.0
    {
      ActionValue(actionValues, action)
    }
  }
}
