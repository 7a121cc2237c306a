/** The remote-control layer (utils/cec_handler.py): the action dispatch of
    the CEC handler, with its long-press counting, and the on-screen
    keyboard's grid navigation. Kodi's action ids are plain integers and
    the handler's three tables are given to it, since the ids themselves
    come from Kodi. */
module CecHandler {
  import opened Common

  /** Three presses of the same action in a row make a long press. */
  const LongPressThreshold := 3

  /** The handler's tables: action id to key name, number key to digit, and
      colour key to colour name. */
  datatype Keymap = Keymap(actions: map<int, string>, numbers: map<int, int>, colors: map<int, string>)

  /** Which callback `handle_action` invokes, and with what. */
  datatype Dispatch =
    | LongPress(key: string)
    | NumberKey(digit: int)
    | NamedKey(key: string)
    | ColorKey(color: string)
    | Unhandled

  /** The callbacks registered so far: named ones by key, and whether a
      number-key and a long-press callback are set. */
  datatype Callbacks = Callbacks(named: set<string>, hasNumber: bool, hasLongPress: bool)

  /** The long-press detector: the last action id seen and how many times in
      a row it has been seen. */
  datatype Presses = Presses(lastAction: Option<int>, pressCount: int)

  /** `_get_key_name` followed by Python's truth test: the mapped key name,
      or "" when there is none (an empty name counts as none). */
  function KeyName(keymap: Keymap, actionId: int): (r: string)
    ensures r != "" <==> actionId in keymap.actions && keymap.actions[actionId] != ""
    ensures r != "" ==> r == keymap.actions[actionId]
  {
    if actionId in keymap.actions then keymap.actions[actionId] else ""
  }

  /** The dispatch after the long-press check: a number key with a number
      callback, else a named key with a callback, else a colour key with a
      callback, else nothing. */
  function Route(keymap: Keymap, callbacks: Callbacks, actionId: int): (r: Dispatch)
    ensures !r.LongPress?
    ensures r.NumberKey? <==> actionId in keymap.numbers && callbacks.hasNumber
    ensures r.NumberKey? ==> r.digit == keymap.numbers[actionId]
    ensures r.NamedKey? <==> !(actionId in keymap.numbers && callbacks.hasNumber)
                             && KeyName(keymap, actionId) != "" && KeyName(keymap, actionId) in callbacks.named
    ensures r.NamedKey? ==> r.key == keymap.actions[actionId]
    ensures r.ColorKey? ==> actionId in keymap.colors && r.color == keymap.colors[actionId] && r.color in callbacks.named
    ensures r.Unhandled? <==> !(actionId in keymap.numbers && callbacks.hasNumber)
                              && !(KeyName(keymap, actionId) != "" && KeyName(keymap, actionId) in callbacks.named)
                              && !(actionId in keymap.colors && keymap.colors[actionId] in callbacks.named)
  {
    if actionId in keymap.numbers && callbacks.hasNumber then NumberKey(keymap.numbers[actionId])
    else if KeyName(keymap, actionId) != "" && KeyName(keymap, actionId) in callbacks.named then
      NamedKey(KeyName(keymap, actionId))
    else if actionId in keymap.colors && keymap.colors[actionId] in callbacks.named then
      ColorKey(keymap.colors[actionId])
    else Unhandled
  }

  /** A long press of `actionId` can be reported: a long-press callback is
      set and the action has a key name. */
  predicate LongPressReady(keymap: Keymap, callbacks: Callbacks, actionId: int) {
    callbacks.hasLongPress && KeyName(keymap, actionId) != ""
  }

  /** `handle_action` as a function of the detector's state: the new state
      and the dispatch. A repeat of the last action counts one more press,
      and at three or more fires the long-press callback (resetting the
      count) when it is ready; a new action starts the count at 1. Anything
      not reported as a long press goes through `Route`. */
  function Handle(keymap: Keymap, callbacks: Callbacks, p: Presses, actionId: int): (r: (Presses, Dispatch))
    ensures r.0.lastAction == Some(actionId)
    ensures p.lastAction != Some(actionId) ==> r.0.pressCount == 1 && r.1 == Route(keymap, callbacks, actionId)
    ensures r.1.LongPress? <==> p.lastAction == Some(actionId) && p.pressCount + 1 >= LongPressThreshold
                                && LongPressReady(keymap, callbacks, actionId)
    ensures r.1.LongPress? ==> r.1.key == keymap.actions[actionId] && r.0.pressCount == 0
    ensures p.lastAction == Some(actionId) && !r.1.LongPress? ==>
              r.0.pressCount == p.pressCount + 1 && r.1 == Route(keymap, callbacks, actionId)
  {
    if p.lastAction == Some(actionId) then
      var count := p.pressCount + 1;
      if count >= LongPressThreshold && LongPressReady(keymap, callbacks, actionId) then
        (Presses(Some(actionId), 0), LongPress(KeyName(keymap, actionId)))
      else
        (Presses(Some(actionId), count), Route(keymap, callbacks, actionId))
    else
      (Presses(Some(actionId), 1), Route(keymap, callbacks, actionId))
  }

  /** Holding a key down: `n` successive presses of the same action, with the
      detector's final state and every dispatch in order. */
  function Hold(keymap: Keymap, callbacks: Callbacks, p: Presses, actionId: int, n: nat): (r: (Presses, seq<Dispatch>))
    ensures |r.1| == n
    decreases n
  {
    if n == 0 then (p, [])
    else
      var first := Handle(keymap, callbacks, p, actionId);
      var rest := Hold(keymap, callbacks, first.0, actionId, n - 1);
      (rest.0, [first.1] + rest.1)
  }

  /** While a ready key is held, with `count` presses already counted (0 to
      2), the press that brings the count to three is a long press, and so
      is every third press after it; every other press is routed as usual. */
  lemma {:induction false} HoldCounting(keymap: Keymap, callbacks: Callbacks, actionId: int, count: int, n: nat)
    requires LongPressReady(keymap, callbacks, actionId)
    requires 0 <= count < LongPressThreshold
    ensures var r := Hold(keymap, callbacks, Presses(Some(actionId), count), actionId, n);
            && r.0 == Presses(Some(actionId), (count + n) % LongPressThreshold)
            && forall i :: 0 <= i < n ==>
                 if (count + i + 1) % LongPressThreshold == 0 then r.1[i] == LongPress(keymap.actions[actionId])
                 else r.1[i] == Route(keymap, callbacks, actionId)
    decreases n
  {
    if n > 0 {
      var p := Presses(Some(actionId), count);
      var first := Handle(keymap, callbacks, p, actionId);
      var next := (count + 1) % LongPressThreshold;
      assert first.0 == Presses(Some(actionId), next);
      HoldCounting(keymap, callbacks, actionId, next, n - 1);
      var rest := Hold(keymap, callbacks, first.0, actionId, n - 1);
      var r := Hold(keymap, callbacks, p, actionId, n);
      assert r.1 == [first.1] + rest.1;
    }
  }

  /** A key held down from a different last action reports a long press on
      exactly every third press: the third, the sixth, and so on. */
  lemma HoldFiresEveryThird(keymap: Keymap, callbacks: Callbacks, p: Presses, actionId: int, n: nat)
    requires LongPressReady(keymap, callbacks, actionId)
    requires p.lastAction != Some(actionId)
    ensures var r := Hold(keymap, callbacks, p, actionId, n);
            forall i :: 0 <= i < n ==> (r.1[i].LongPress? <==> (i + 1) % LongPressThreshold == 0)
  {
    if n > 0 {
      var first := Handle(keymap, callbacks, p, actionId);
      HoldCounting(keymap, callbacks, actionId, 1, n - 1);
      var rest := Hold(keymap, callbacks, first.0, actionId, n - 1);
      assert Hold(keymap, callbacks, p, actionId, n).1 == [first.1] + rest.1;
    }
  }

  /** The CEC handler: its tables, its registered callbacks and the
      long-press detector. */
  class CecHandler {
    const keymap: Keymap
    var callbacks: Callbacks
    var lastAction: Option<int>
    var pressCount: int

    constructor (keymap: Keymap)
      ensures this.keymap == keymap && callbacks == Callbacks({}, false, false)
      ensures lastAction == None && pressCount == 0
    {
      this.keymap := keymap;
      callbacks := Callbacks({}, false, false);
      lastAction := None;
      pressCount := 0;
    }

    /** `register_callback`: a callback for the key name `key`. */
    method RegisterCallback(key: string)
      modifies this
      ensures callbacks == old(callbacks).(named := old(callbacks).named + {key})
      ensures lastAction == old(lastAction) && pressCount == old(pressCount)
    {
      callbacks := callbacks.(named := callbacks.named + {key});
    }

    method RegisterNumberCallback()
      modifies this
      ensures callbacks == old(callbacks).(hasNumber := true)
      ensures lastAction == old(lastAction) && pressCount == old(pressCount)
    {
      callbacks := callbacks.(hasNumber := true);
    }

    method RegisterLongPressCallback()
      modifies this
      ensures callbacks == old(callbacks).(hasLongPress := true)
      ensures lastAction == old(lastAction) && pressCount == old(pressCount)
    {
      callbacks := callbacks.(hasLongPress := true);
    }

    /** `clear_callbacks`: every callback dropped; the detector is kept. */
    method ClearCallbacks()
      modifies this
      ensures callbacks == Callbacks({}, false, false)
      ensures lastAction == old(lastAction) && pressCount == old(pressCount)
    {
      callbacks := Callbacks({}, false, false);
    }

    /** `handle_action`: the callback to invoke (none for `Unhandled`), and
        True exactly when one is invoked. */
    method HandleAction(actionId: int) returns (handled: bool, d: Dispatch)
      modifies this
      ensures (Presses(lastAction, pressCount), d)
              == Handle(keymap, callbacks, Presses(old(lastAction), old(pressCount)), actionId)
      ensures handled <==> !d.Unhandled?
      ensures callbacks == old(callbacks)
    {
      if Some(actionId) == lastAction {
        pressCount := pressCount + 1;
        if pressCount >= LongPressThreshold {
          if callbacks.hasLongPress {
            var keyName := KeyName(keymap, actionId);
            if keyName != "" {
              pressCount := 0;
              return true, LongPress(keyName);
            }
          }
        }
      } else {
        lastAction := Some(actionId);
        pressCount := 1;
      }
      if actionId in keymap.numbers && callbacks.hasNumber {
        return true, NumberKey(keymap.numbers[actionId]);
      }
      var keyName := KeyName(keymap, actionId);
      if keyName != "" && keyName in callbacks.named {
        return true, NamedKey(keyName);
      }
      if actionId in keymap.colors && keymap.colors[actionId] in callbacks.named {
        return true, ColorKey(keymap.colors[actionId]);
      }
      return false, Unhandled;
    }
  }

  // ---------------------------------------------------------------------
  // Arithmetic on Python's `%` with a positive divisor, which is Dafny's.

  lemma MulBounds(n: int, d: int)
    requires n > 0
    ensures d >= 1 ==> n * d >= n
    ensures d <= -1 ==> n * d <= -n
  {
  }

  /** Quotient and remainder are unique. */
  lemma DivModUnique(a: int, n: int, q: int, r: int)
    requires n > 0 && 0 <= r < n && a == n * q + r
    ensures a / n == q && a % n == r
  {
    var d := q - a / n;
    assert n * d == a % n - r by {
      assert a == n * (a / n) + a % n;
      assert n * q - n * (a / n) == n * d;
    }
    MulBounds(n, d);
  }

  /** Adding a multiple of `n` leaves the remainder alone. */
  lemma ModShift(z: int, n: int, k: int)
    requires n > 0
    ensures (z + n * k) % n == z % n
  {
    assert z + n * k == n * (z / n + k) + z % n by {
      assert z == n * (z / n) + z % n;
      assert n * (z / n + k) == n * (z / n) + n * k;
    }
    DivModUnique(z + n * k, n, z / n + k, z % n);
  }

  /** Reducing a summand first does not change the remainder of the sum. */
  lemma ModAddLeft(x: int, y: int, n: int)
    requires n > 0
    ensures (x % n + y) % n == (x + y) % n
  {
    assert x % n + y == (x + y) + n * (-(x / n)) by {
      assert x == n * (x / n) + x % n;
    }
    ModShift(x + y, n, -(x / n));
  }

  // ---------------------------------------------------------------------
  // Grid navigation.

  type Cell = (int, int)

  /** The keyboard grid: its size and the cells navigation skips. */
  datatype Grid = Grid(rows: int, cols: int, skip: set<Cell>)

  predicate InGrid(g: Grid, p: Cell) {
    0 <= p.0 < g.rows && 0 <= p.1 < g.cols
  }

  /** A move's first target: each coordinate with a nonzero delta moves by
      it, wrapping round; a zero delta keeps the coordinate. */
  function Start(g: Grid, p: Cell, rowDelta: int, colDelta: int): (r: Cell)
    requires g.rows > 0 && g.cols > 0
    ensures rowDelta == 0 ==> r.0 == p.0
    ensures colDelta == 0 ==> r.1 == p.1
    ensures rowDelta != 0 ==> 0 <= r.0 < g.rows && (r.0 - p.0 - rowDelta) % g.rows == 0
    ensures colDelta != 0 ==> 0 <= r.1 < g.cols && (r.1 - p.1 - colDelta) % g.cols == 0
    ensures InGrid(g, p) ==> InGrid(g, r)
  {
    WrapCongruent(p.0 + rowDelta, g.rows);
    WrapCongruent(p.1 + colDelta, g.cols);
    ((if rowDelta != 0 then (p.0 + rowDelta) % g.rows else p.0),
     (if colDelta != 0 then (p.1 + colDelta) % g.cols else p.1))
  }

  /** `x % n` differs from `x` by a multiple of `n`. */
  lemma WrapCongruent(x: int, n: int)
    requires n > 0
    ensures (x % n - x) % n == 0
  {
    var q := x / n;
    assert x % n - x == -q * n;
    assert (-q * n) % n == 0 by {
      ModMultiple(-q, n);
    }
  }

  lemma ModMultiple(k: int, n: int)
    requires n > 0
    ensures (k * n) % n == 0
  {
    var d := (k * n) / n;
    var m := (k * n) % n;
    assert k * n == d * n + m && 0 <= m < n;
    var e := k - d;
    assert e * n == m;
    MultipleBounds(e, n);
  }

  /** A nonzero multiple of `n` is at least `n` away from zero. */
  lemma MultipleBounds(e: int, n: int)
    requires n > 0
    ensures e >= 1 ==> e * n >= n
    ensures e <= -1 ==> e * n <= -n
  {
    if e >= 1 {
      assert e * n == n + (e - 1) * n;
      assert (e - 1) * n >= 0;
    } else if e <= -1 {
      assert e * n == -n + (e + 1) * n;
      assert (e + 1) * n <= 0;
    }
  }

  /** One step of the skip loop: one column in the column delta's direction
      when there is one, else one row in the row delta's direction, else no
      step at all. */
  function Next(g: Grid, p: Cell, rowDelta: int, colDelta: int): (r: Cell)
    requires g.rows > 0 && g.cols > 0
    ensures colDelta != 0 ==> r == (p.0, (p.1 + (if colDelta > 0 then 1 else -1)) % g.cols)
    ensures colDelta == 0 && rowDelta != 0 ==> r == ((p.0 + (if rowDelta > 0 then 1 else -1)) % g.rows, p.1)
    ensures colDelta == 0 && rowDelta == 0 ==> r == p
    ensures InGrid(g, p) ==> InGrid(g, r)
  {
    if colDelta != 0 then (p.0, (p.1 + (if colDelta > 0 then 1 else -1)) % g.cols)
    else if rowDelta != 0 then ((p.0 + (if rowDelta > 0 then 1 else -1)) % g.rows, p.1)
    else p
  }

  /** The skip loop from `p` after `attempts` steps: it stops at the first
      cell not skipped, or gives up with the cell it reached once the
      attempts exceed rows * cols. Only the scan axis ever changes. */
  function Scan(g: Grid, p: Cell, rowDelta: int, colDelta: int, attempts: nat): (r: Cell)
    requires g.rows > 0 && g.cols > 0
    requires attempts <= g.rows * g.cols
    ensures InGrid(g, p) ==> InGrid(g, r)
    ensures colDelta != 0 ==> r.0 == p.0
    ensures colDelta == 0 ==> r.1 == p.1
    ensures p !in g.skip ==> r == p
    decreases g.rows * g.cols - attempts
  {
    if p !in g.skip then p
    else
      var q := Next(g, p, rowDelta, colDelta);
      if attempts + 1 > g.rows * g.cols then q else Scan(g, q, rowDelta, colDelta, attempts + 1)
  }

  /** `k` steps of the skip loop, never giving up. */
  function Steps(g: Grid, p: Cell, rowDelta: int, colDelta: int, k: nat): Cell
    requires g.rows > 0 && g.cols > 0
    decreases k
  {
    if k == 0 then p else Steps(g, Next(g, p, rowDelta, colDelta), rowDelta, colDelta, k - 1)
  }

  /** A scan that would meet a free cell within its remaining attempts stops
      on a free cell. */
  lemma {:induction false} ScanReaches(g: Grid, p: Cell, rowDelta: int, colDelta: int, attempts: nat, k: nat)
    requires g.rows > 0 && g.cols > 0
    requires attempts + k <= g.rows * g.cols
    requires Steps(g, p, rowDelta, colDelta, k) !in g.skip
    ensures Scan(g, p, rowDelta, colDelta, attempts) !in g.skip
    decreases k
  {
    if p in g.skip && k > 0 {
      ScanReaches(g, Next(g, p, rowDelta, colDelta), rowDelta, colDelta, attempts + 1, k - 1);
    }
  }

  /** `k` wrapped steps of `step` from `x` modulo `n`, one at a time. */
  ghost function Wrapped(x: int, step: int, n: int, k: nat): int
    requires n > 0
    decreases k
  {
    if k == 0 then x else Wrapped((x + step) % n, step, n, k - 1)
  }

  /** Stepping one at a time from inside the range is one wrapped jump. */
  lemma {:induction false} WrappedJump(x: int, step: int, n: int, k: nat)
    requires n > 0 && 0 <= x < n && (step == 1 || step == -1)
    ensures Wrapped(x, step, n, k) == (x + step * k) % n
    decreases k
  {
    if k == 0 {
      DivModUnique(x, n, 0, x);
    } else {
      WrappedJump((x + step) % n, step, n, k - 1);
      ModAddLeft(x + step, step * (k - 1), n);
      assert step * k == step * (k - 1) + step by {
        if step == 1 {} else {}
      }
    }
  }

  /** A column move steps only the column, one wrapped step at a time. */
  lemma {:induction false} StepsRowWrapped(g: Grid, p: Cell, rowDelta: int, colDelta: int, k: nat)
    requires g.rows > 0 && g.cols > 0 && colDelta != 0
    ensures Steps(g, p, rowDelta, colDelta, k) == (p.0, Wrapped(p.1, if colDelta > 0 then 1 else -1, g.cols, k))
    decreases k
  {
    if k > 0 {
      StepsRowWrapped(g, Next(g, p, rowDelta, colDelta), rowDelta, colDelta, k - 1);
    }
  }

  /** A row move steps only the row, one wrapped step at a time. */
  lemma {:induction false} StepsColumnWrapped(g: Grid, p: Cell, rowDelta: int, colDelta: int, k: nat)
    requires g.rows > 0 && g.cols > 0 && colDelta == 0 && rowDelta != 0
    ensures Steps(g, p, rowDelta, colDelta, k) == (Wrapped(p.0, if rowDelta > 0 then 1 else -1, g.rows, k), p.1)
    decreases k
  {
    if k > 0 {
      StepsColumnWrapped(g, Next(g, p, rowDelta, colDelta), rowDelta, colDelta, k - 1);
    }
  }

  /** `k` column steps from `p` land on column `(p.1 + step * k) % cols`. */
  lemma StepsAlongRow(g: Grid, p: Cell, rowDelta: int, colDelta: int, k: nat)
    requires g.rows > 0 && g.cols > 0 && colDelta != 0 && 0 <= p.1 < g.cols
    ensures Steps(g, p, rowDelta, colDelta, k) == (p.0, (p.1 + (if colDelta > 0 then 1 else -1) * k) % g.cols)
  {
    StepsRowWrapped(g, p, rowDelta, colDelta, k);
    WrappedJump(p.1, if colDelta > 0 then 1 else -1, g.cols, k);
  }

  /** `k` row steps from `p` land on row `(p.0 + step * k) % rows`. */
  lemma StepsAlongColumn(g: Grid, p: Cell, rowDelta: int, colDelta: int, k: nat)
    requires g.rows > 0 && g.cols > 0 && colDelta == 0 && rowDelta != 0 && 0 <= p.0 < g.rows
    ensures Steps(g, p, rowDelta, colDelta, k) == ((p.0 + (if rowDelta > 0 then 1 else -1) * k) % g.rows, p.1)
  {
    StepsColumnWrapped(g, p, rowDelta, colDelta, k);
    WrappedJump(p.0, if rowDelta > 0 then 1 else -1, g.rows, k);
  }

  /** Some cell on the scan axis through `p` is not skipped: on `p`'s row
      for a column move, on its column for a row move. */
  predicate AxisHasFreeCell(g: Grid, p: Cell, rowDelta: int, colDelta: int) {
    if colDelta != 0 then exists j :: 0 <= j < g.cols && (p.0, j) !in g.skip
    else exists i :: 0 <= i < g.rows && (i, p.1) !in g.skip
  }

  /** From any `from`, some number of wrapping steps of +1 (or of -1),
      fewer than `n`, reaches `target`. */
  lemma Reach(from: int, target: int, step: int, n: int) returns (k: nat)
    requires n > 0 && 0 <= target < n && (step == 1 || step == -1)
    ensures k < n && (from + step * k) % n == target
  {
    DivModUnique(target, n, 0, target);
    if step == 1 {
      k := (target - from) % n;
      ModAddLeft(target - from, from, n);
    } else {
      k := (from - target) % n;
      var q := (from - target) / n;
      assert from - k == target + n * q by {
        assert from - target == n * q + (from - target) % n;
      }
      ModShift(target, n, q);
    }
  }

  /** Whenever the scan axis has a free cell, the scan started on the grid
      ends on a free cell: it visits the whole axis within rows * cols
      attempts. */
  lemma ScanFinds(g: Grid, p: Cell, rowDelta: int, colDelta: int)
    requires g.rows > 0 && g.cols > 0 && InGrid(g, p)
    requires rowDelta != 0 || colDelta != 0
    requires AxisHasFreeCell(g, p, rowDelta, colDelta)
    ensures Scan(g, p, rowDelta, colDelta, 0) !in g.skip
  {
    MulBounds(g.cols, g.rows);
    MulBounds(g.rows, g.cols);
    assert g.cols * g.rows == g.rows * g.cols;
    if colDelta != 0 {
      var j :| 0 <= j < g.cols && (p.0, j) !in g.skip;
      var k := Reach(p.1, j, if colDelta > 0 then 1 else -1, g.cols);
      StepsAlongRow(g, p, rowDelta, colDelta, k);
      ScanReaches(g, p, rowDelta, colDelta, 0, k);
    } else {
      var i :| 0 <= i < g.rows && (i, p.1) !in g.skip;
      var k := Reach(p.0, i, if rowDelta > 0 then 1 else -1, g.rows);
      StepsAlongColumn(g, p, rowDelta, colDelta, k);
      ScanReaches(g, p, rowDelta, colDelta, 0, k);
    }
  }

  /** The keyboard's navigation state: a grid of `rows` by `cols` cells,
      some of them skipped, and the current cell. */
  class KeyboardNavigation {
    const rows: int
    const cols: int
    const skipCells: set<Cell>
    var currentRow: int
    var currentCol: int

    function Shape(): Grid {
      Grid(rows, cols, skipCells)
    }

    ghost predicate Valid()
      reads this
    {
      rows > 0 && cols > 0 && InGrid(Shape(), (currentRow, currentCol))
    }

    /** A grid of at least one cell, starting in the top left corner. */
    constructor (rows: int, cols: int, skipCells: set<Cell>)
      requires rows > 0 && cols > 0
      ensures Valid()
      ensures this.rows == rows && this.cols == cols && this.skipCells == skipCells
      ensures currentRow == 0 && currentCol == 0
    {
      this.rows := rows;
      this.cols := cols;
      this.skipCells := skipCells;
      currentRow := 0;
      currentCol := 0;
    }

    /** `move`: the first target, then the skip loop; the cell it ends on
        becomes the current one. */
    method Move(rowDelta: int, colDelta: int) returns (r: Cell)
      requires Valid()
      modifies this
      ensures Valid()
      ensures r == Scan(Shape(), Start(Shape(), (old(currentRow), old(currentCol)), rowDelta, colDelta), rowDelta, colDelta, 0)
      ensures (currentRow, currentCol) == r
    {
      var g := Shape();
      var first := Start(g, (currentRow, currentCol), rowDelta, colDelta);
      var newRow, newCol := first.0, first.1;
      var attempts := 0;
      MulBounds(rows, cols);
      while (newRow, newCol) in skipCells
        invariant 0 <= attempts <= rows * cols
        invariant InGrid(g, (newRow, newCol))
        invariant Scan(g, (newRow, newCol), rowDelta, colDelta, attempts) == Scan(g, first, rowDelta, colDelta, 0)
        decreases rows * cols - attempts
      {
        if colDelta != 0 {
          newCol := (newCol + (if colDelta > 0 then 1 else -1)) % cols;
        } else if rowDelta != 0 {
          newRow := (newRow + (if rowDelta > 0 then 1 else -1)) % rows;
        }
        attempts := attempts + 1;
        if attempts > rows * cols {
          break;
        }
      }
      currentRow, currentCol := newRow, newCol;
      r := (newRow, newCol);
    }

    method MoveUp() returns (r: Cell)
      requires Valid()
      modifies this
      ensures Valid() && (currentRow, currentCol) == r
      ensures r == Scan(Shape(), Start(Shape(), (old(currentRow), old(currentCol)), -1, 0), -1, 0, 0)
    {
      r := Move(-1, 0);
    }

    method MoveDown() returns (r: Cell)
      requires Valid()
      modifies this
      ensures Valid() && (currentRow, currentCol) == r
      ensures r == Scan(Shape(), Start(Shape(), (old(currentRow), old(currentCol)), 1, 0), 1, 0, 0)
    {
      r := Move(1, 0);
    }

    method MoveLeft() returns (r: Cell)
      requires Valid()
      modifies this
      ensures Valid() && (currentRow, currentCol) == r
      ensures r == Scan(Shape(), Start(Shape(), (old(currentRow), old(currentCol)), 0, -1), 0, -1, 0)
    {
      r := Move(0, -1);
    }

    method MoveRight() returns (r: Cell)
      requires Valid()
      modifies this
      ensures Valid() && (currentRow, currentCol) == r
      ensures r == Scan(Shape(), Start(Shape(), (old(currentRow), old(currentCol)), 0, 1), 0, 1, 0)
    {
      r := Move(0, 1);
    }

    /** `set_position`: each coordinate clamped into the grid. */
    method SetPosition(row: int, col: int)
      requires Valid()
      modifies this
      ensures Valid()
      ensures currentRow == Clamp(row, rows) && currentCol == Clamp(col, cols)
    {
      currentRow := Clamp(row, rows);
      currentCol := Clamp(col, cols);
    }

    /** `get_position`: the current cell, always one of the grid's. */
    function GetPosition(): (r: Cell)
      reads this
      ensures r == (currentRow, currentCol)
      ensures Valid() ==> InGrid(Shape(), r)
    {
      (currentRow, currentCol)
    }

    /** `get_linear_index`: the cell's position in row-major order, from
        which its row and column can be read back. */
    function GetLinearIndex(): (r: int)
      reads this
      ensures Valid() ==> 0 <= r < rows * cols && r / cols == currentRow && r % cols == currentCol
    {
      var r := currentRow * cols + currentCol;
      if 0 <= currentRow < rows && 0 <= currentCol < cols then
        LinearIndex(currentRow, currentCol, rows, cols);
        r
      else r
    }
  }

  /** `max(0, min(x, n - 1))`: `x` itself when in range, otherwise the
      nearest end of `0 .. n - 1`. */
  function Clamp(x: int, n: int): (r: int)
    requires n > 0
    ensures 0 <= r < n
    ensures 0 <= x < n ==> r == x
    ensures x < 0 ==> r == 0
    ensures x >= n ==> r == n - 1
  {
    if x < 0 then 0 else if x > n - 1 then n - 1 else x
  }

  /** Row-major indices of the grid's cells fill `0 .. rows * cols - 1` and
      give back the row and column. */
  lemma LinearIndex(row: int, col: int, rows: int, cols: int)
    requires 0 <= row < rows && 0 <= col < cols
    ensures 0 <= row * cols + col < rows * cols
    ensures (row * cols + col) / cols == row && (row * cols + col) % cols == col
  {
    DivModUnique(row * cols + col, cols, row, col);
    MulBounds(cols, rows - row);
    assert rows * cols - row * cols == cols * (rows - row);
  }
}
