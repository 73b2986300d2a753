/** Which page boxes of a PDF belong to pages, and which are inherited from the page tree. */
module PageBoxes {
  import opened Outcomes

  datatype Size = Size(width: real, height: real)

  /** What the scan looks for in the text, in order of appearance. */
  datatype Token = Open | Close | MediaBox(size: Size) | PagesType

  const MAX_PAGE_BOXES := 2000
  const MAX_NESTING := 4096

  // ---------- the simple definition ----------

  /** How much deeper the nesting is after [a, b) than before it. */
  ghost function Depth(text: seq<Token>, a: nat, b: nat): int
    requires b <= |text|
    decreases b
  {
    if b <= a then 0
    else Depth(text, a, b - 1) + (if text[b - 1].Open? then 1 else if text[b - 1].Close? then -1 else 0)
  }

  /** The dictionary opened at o is still open at p. */
  ghost predicate Encloses(text: seq<Token>, o: int, p: nat)
    requires p <= |text|
  {
    0 <= o < p && text[o].Open? && forall q: nat | o < q <= p :: Depth(text, o, q) >= 1
  }

  ghost predicate Innermost(text: seq<Token>, o: int, p: nat)
    requires p <= |text|
  {
    Encloses(text, o, p) && forall o' | Encloses(text, o', p) :: o' <= o
  }

  /** A later closing delimiter finds o innermost. */
  ghost predicate Closed(text: seq<Token>, o: int) {
    exists c: nat | c < |text| :: text[c].Close? && Innermost(text, o, c)
  }

  /** A page-tree mark stands directly in the dictionary. */
  ghost predicate PagesNode(text: seq<Token>, o: int) {
    exists k: nat | k < |text| :: text[k].PagesType? && Innermost(text, o, k)
  }

  /** A box is inherited when its innermost dictionary is closed and is itself a page-tree node. */
  ghost predicate Inherited(text: seq<Token>, p: nat)
    requires p < |text|
  {
    exists o :: Innermost(text, o, p) && Closed(text, o) && PagesNode(text, o)
  }

  // ---------- the stack the scan keeps ----------

  function Pushed(stack: seq<nat>, token: Token, at: nat): seq<nat> {
    if token.Open? then (if |stack| < MAX_NESTING then stack + [at] else stack)
    else if token.Close? && stack != [] then stack[..|stack| - 1]
    else stack
  }

  function Stack(text: seq<Token>, p: nat): seq<nat>
    requires p <= |text|
  {
    if p == 0 then [] else Pushed(Stack(text, p - 1), text[p - 1], p - 1)
  }

  /** Of dictionaries opened one in another only the outermost 4,096 are kept. */
  lemma {:induction false} DeepOpensDropped(text: seq<Token>, n: nat)
    requires n <= |text| && forall i | 0 <= i < n :: text[i].Open?
    ensures |Stack(text, n)| == (if n < 4096 then n else 4096)
    ensures forall i | 0 <= i < |Stack(text, n)| :: Stack(text, n)[i] == i
    decreases n
  {
    if n > 0 {
      DeepOpensDropped(text, n - 1);
    }
  }

  function TopOf(stack: seq<nat>): int { if stack == [] then -1 else stack[|stack| - 1] }

  function Top(text: seq<Token>, p: nat): int
    requires p <= |text|
  {
    TopOf(Stack(text, p))
  }

  ghost predicate Shallow(text: seq<Token>) {
    forall p: nat | p < |text| && text[p].Open? :: |Stack(text, p)| < 4096
  }

  /** The stack holds exactly the enclosing dictionaries, outermost first. */
  ghost predicate Holds(text: seq<Token>, p: nat, stack: seq<nat>)
    requires p <= |text|
  {
    && (forall i | 0 <= i < |stack| :: Encloses(text, stack[i], p) && Depth(text, stack[i], p) == |stack| - i)
    && (forall i, j | 0 <= i < j < |stack| :: stack[i] < stack[j])
    && (forall o | Encloses(text, o, p) :: o in stack)
  }

  lemma EnclosesStep(text: seq<Token>, o: int, p: nat)
    requires p < |text|
    ensures Encloses(text, o, p + 1) <==>
              (o == p && text[p].Open?) || (Encloses(text, o, p) && Depth(text, o, p + 1) >= 1)
  {
    if o == p {
      assert Depth(text, p, p) == 0;
    }
  }

  lemma HoldsStep(text: seq<Token>, p: nat, stack: seq<nat>)
    requires p < |text| && Holds(text, p, stack) && (text[p].Open? ==> |stack| < MAX_NESTING)
    ensures Holds(text, p + 1, Pushed(stack, text[p], p))
  {
    hide Encloses;
    var next := Pushed(stack, text[p], p);
    forall o ensures Encloses(text, o, p + 1) ==> o in next {
      EnclosesStep(text, o, p);
      if Encloses(text, o, p + 1) && o != p {
        var i :| 0 <= i < |stack| && stack[i] == o;
        assert i < |next| ==> next[i] == o;
      }
      assert text[p].Open? ==> next[|stack|] == p;
    }
    assert Depth(text, p, p) == 0;
    forall i | 0 <= i < |next| ensures Encloses(text, next[i], p + 1) && Depth(text, next[i], p + 1) == |next| - i {
      EnclosesStep(text, next[i], p);
    }
    forall i | 0 <= i < |stack| ensures stack[i] < p {
      EnclosesBefore(text, stack[i], p);
    }
  }

  lemma EnclosesBefore(text: seq<Token>, o: int, p: nat)
    requires p <= |text| && Encloses(text, o, p)
    ensures 0 <= o < p
  {
  }

  lemma {:induction false} StackHolds(text: seq<Token>, p: nat)
    requires p <= |text| && Shallow(text)
    ensures Holds(text, p, Stack(text, p))
  {
    hide Encloses, Pushed;
    if p > 0 {
      StackHolds(text, p - 1);
      HoldsStep(text, p - 1, Stack(text, p - 1));
    } else {
      NothingEncloses(text);
    }
  }

  lemma NothingEncloses(text: seq<Token>)
    ensures Holds(text, 0, [])
  {
  }

  /** The top of the stack is the innermost dictionary. */
  lemma TopIsInnermost(text: seq<Token>, p: nat)
    requires p <= |text| && Shallow(text)
    ensures Top(text, p) >= 0 ==> Innermost(text, Top(text, p), p) && Depth(text, Top(text, p), p) == 1
    ensures forall o :: Innermost(text, o, p) ==> Top(text, p) == o && o >= 0
  {
    hide Encloses;
    StackHolds(text, p);
    var stack := Stack(text, p);
    forall o | Encloses(text, o, p) ensures stack != [] && o <= Top(text, p) {
      var i :| 0 <= i < |stack| && stack[i] == o;
      assert i < |stack| - 1 ==> stack[i] < stack[|stack| - 1];
    }
    forall o | Innermost(text, o, p) ensures Top(text, p) == o && o >= 0 {
      EnclosesBefore(text, o, p);
    }
  }

  // ---------- what the scan decides, in terms of its stack ----------

  /** The stack holds rising positions below p. */
  lemma {:induction false} StackRises(text: seq<Token>, p: nat)
    requires p <= |text|
    ensures forall i | 0 <= i < |Stack(text, p)| :: Stack(text, p)[i] < p
    ensures forall i, j | 0 <= i < j < |Stack(text, p)| :: Stack(text, p)[i] < Stack(text, p)[j]
  {
    if p > 0 {
      StackRises(text, p - 1);
    }
  }

  /** Once popped, a dictionary never comes back. */
  lemma {:induction false} PoppedGone(text: seq<Token>, d: nat, p: nat)
    requires d < p <= |text| && text[d].Close? && Top(text, d) >= 0
    ensures Top(text, d) !in Stack(text, p)
    decreases p
  {
    StackRises(text, d);
    if d + 1 < p {
      PoppedGone(text, d, p - 1);
    }
  }

  ghost predicate NoDelimiter(text: seq<Token>, a: nat, b: nat) {
    forall k | a <= k < b && k < |text| :: !text[k].Open? && !text[k].Close?
  }

  lemma {:induction false} StackSame(text: seq<Token>, a: nat, b: nat)
    requires a <= b <= |text| && NoDelimiter(text, a, b)
    ensures Stack(text, b) == Stack(text, a)
    decreases b
  {
    if a < b {
      StackSame(text, a, b - 1);
    }
  }

  /** A closing delimiter after p pops the dictionary that is on top at p. */
  ghost predicate Popped(text: seq<Token>, p: nat)
    requires p < |text|
  {
    Top(text, p) >= 0 && exists d: nat | p < d < |text| :: text[d].Close? && Top(text, d) == Top(text, p)
  }

  /** One of the marks stands directly in the dictionary. */
  ghost predicate Marked(text: seq<Token>, marks: seq<nat>, o: int)
    requires Rising(text, marks)
  {
    exists k | 0 <= k < |marks| :: Top(text, marks[k]) == o
  }

  ghost predicate Judged(text: seq<Token>, marks: seq<nat>, p: nat)
    requires p < |text| && Rising(text, marks)
  {
    Popped(text, p) && Marked(text, marks, Top(text, p))
  }

  /** Rising positions in the text. */
  ghost predicate Rising(text: seq<Token>, s: seq<nat>) {
    (forall i | 0 <= i < |s| :: s[i] < |text|) && (forall i, j | 0 <= i < j < |s| :: s[i] < s[j])
  }

  /** Below the nesting limit and with every mark read, the scan's judgement is the simple definition. */
  lemma JudgedIsInherited(text: seq<Token>, marks: seq<nat>, p: nat)
    requires p < |text| && Shallow(text) && Rising(text, marks) && !text[p].Open? && !text[p].Close?
    requires forall k: nat | k < |text| :: text[k].PagesType? <==> k in marks
    ensures Judged(text, marks, p) <==> Inherited(text, p)
  {
    hide Encloses, Innermost, Stack;
    TopIsInnermost(text, p);
    var o := Top(text, p);
    if Judged(text, marks, p) {
      var d: nat :| p < d < |text| && text[d].Close? && Top(text, d) == o;
      TopIsInnermost(text, d);
      var k :| 0 <= k < |marks| && Top(text, marks[k]) == o;
      assert marks[k] in marks;
      TopIsInnermost(text, marks[k]);
      assert Closed(text, o) && PagesNode(text, o);
    }
    if Inherited(text, p) {
      assert Innermost(text, o, p) && Closed(text, o) && PagesNode(text, o);
      var d: nat :| d < |text| && text[d].Close? && Innermost(text, o, d);
      TopIsInnermost(text, d);
      ClosedAfter(text, o, p, d);
      var k: nat :| k < |text| && text[k].PagesType? && Innermost(text, o, k);
      TopIsInnermost(text, k);
      var i :| 0 <= i < |marks| && marks[i] == k;
      assert Top(text, marks[i]) == o;
    }
  }

  /** A dictionary that encloses p closes after it. */
  lemma ClosedAfter(text: seq<Token>, o: int, p: nat, d: nat)
    requires p < |text| && d < |text| && Shallow(text) && text[d].Close? && !text[p].Close?
    requires Innermost(text, o, p) && Innermost(text, o, d)
    ensures p < d
  {
    TopIsInnermost(text, d);
    assert Depth(text, o, d + 1) == 0;
  }

  // ---------- the scan ----------

  /** The first `next` positions come before `at`, the others do not. */
  ghost predicate SplitAt(s: seq<nat>, next: nat, at: nat) {
    next <= |s| && (forall k | 0 <= k < next :: s[k] < at) && (forall k | next <= k < |s| :: at <= s[k])
  }

  ghost predicate Distinct(s: seq<nat>) { forall i, j | 0 <= i < j < |s| :: s[i] != s[j] }

  /** Every list of a dictionary holds boxes that stand directly in it, and the dictionary is open. */
  ghost predicate Owners(text: seq<Token>, open: seq<nat>, owned: map<int, seq<nat>>) {
    forall o | o in owned ::
      && (o == -1 || o in open) && owned[o] != [] && Distinct(owned[o])
      && forall p | p in owned[o] :: p < |text| && Top(text, p) == o
  }

  ghost predicate InOwned(owned: map<int, seq<nat>>, p: nat) {
    exists o | o in owned :: p in owned[o]
  }

  /** Each box met so far is in one place: with its open dictionary, a leaf, or inherited. */
  ghost predicate Placed(met: seq<nat>, owned: map<int, seq<nat>>, leafAt: seq<nat>, inheritedAt: seq<nat>) {
    && Distinct(leafAt) && Distinct(inheritedAt)
    && (forall p :: p in met <==> p in leafAt || p in inheritedAt || InOwned(owned, p))
    && (forall p | InOwned(owned, p) :: p !in leafAt && p !in inheritedAt)
  }

  ghost predicate Decided(text: seq<Token>, marks: seq<nat>, leafAt: seq<nat>, inheritedAt: seq<nat>)
    requires Rising(text, marks)
  {
    && (forall p | p in leafAt :: p < |text| && !Judged(text, marks, p))
    && (forall p | p in inheritedAt :: p < |text| && Judged(text, marks, p))
  }

  function SizeAt(text: seq<Token>, p: nat): Size {
    if p < |text| && text[p].MediaBox? then text[p].size else Size(0.0, 0.0)
  }

  function Sizes(text: seq<Token>, at: seq<nat>): (s: seq<Size>)
    ensures |s| == |at|
  {
    seq(|at|, i requires 0 <= i < |at| => SizeAt(text, at[i]))
  }

  lemma SizesConcat(text: seq<Token>, a: seq<nat>, b: seq<nat>)
    ensures Sizes(text, a + b) == Sizes(text, a) + Sizes(text, b)
  {
  }

  /** How many dictionaries own a box; -1 stands for no dictionary. */
  ghost function Pending(keys: set<int>): nat { |keys - {-1}| }

  /** Rising positions of boxes and of page-tree marks. */
  ghost predicate Found(text: seq<Token>, boxes: seq<nat>, marks: seq<nat>) {
    && Rising(text, boxes) && Rising(text, marks)
    && (forall p | p in boxes :: p < |text| && text[p].MediaBox?)
    && (forall k | k in marks :: k < |text| && text[k].PagesType?)
  }

  datatype Task = Task(text: seq<Token>, boxes: seq<nat>, marks: seq<nat>)

  /** Everything the scan has decided and still holds. */
  datatype State = State(
    open: seq<nat>, owned: map<int, seq<nat>>, pagesNodes: set<int>, next: nat, nextMark: nat,
    leafAt: seq<nat>, inheritedAt: seq<nat>)

  /** Delimiters are taken up to `at`, marks up to `markAt` and boxes up to `boxAt`. */
  ghost predicate Inv(task: Task, st: State, at: nat, markAt: nat, boxAt: nat) {
    && Found(task.text, task.boxes, task.marks) && at <= |task.text|
    && st.open == Stack(task.text, at)
    && SplitAt(task.marks, st.nextMark, markAt) && SplitAt(task.boxes, st.next, boxAt)
    && Nodes(task.text, task.marks[..st.nextMark], st.pagesNodes)
    && Owners(task.text, st.open, st.owned)
    && Placed(task.boxes[..st.next], st.owned, st.leafAt, st.inheritedAt)
    && Decided(task.text, task.marks, st.leafAt, st.inheritedAt)
  }

  ghost predicate Nodes(text: seq<Token>, taken: seq<nat>, pagesNodes: set<int>)
  {
    Rising(text, taken) && forall o :: o in pagesNodes <==> o >= 0 && Marked(text, taken, o)
  }

  // ---------- one step of the scan at a time ----------

  lemma KeysShrink(keys: set<int>, start: int)
    requires start in keys && start >= 0
    ensures Pending(keys - {start}) == Pending(keys) - 1
  {
    assert keys - {start} - {-1} == (keys - {-1}) - {start};
  }

  /** The lists of different dictionaries share no box, and the rest stay in order without one of them. */
  lemma OwnersApart(text: seq<Token>, open: seq<nat>, owned: map<int, seq<nat>>, start: int)
    requires Owners(text, open, owned) && start in owned
    ensures Distinct(owned[start]) && Owners(text, open, owned - {start})
    ensures forall o | o in owned && o != start :: forall p | p in owned[o] :: p !in owned[start]
    ensures forall p | p in owned[start] :: p < |text| && Top(text, p) == start
  {
    hide Top;
  }

  lemma DecideMore(text: seq<Token>, marks: seq<nat>, leafAt: seq<nat>, inheritedAt: seq<nat>,
                   own: seq<nat>, judged: bool)
    requires Rising(text, marks) && Decided(text, marks, leafAt, inheritedAt)
    requires forall p | p in own :: p < |text| && (Judged(text, marks, p) <==> judged)
    ensures if judged then Decided(text, marks, leafAt, inheritedAt + own)
            else Decided(text, marks, leafAt + own, inheritedAt)
  {
    hide Judged;
  }

  /** Moving one dictionary's boxes to either list keeps every box in one place. */
  lemma HandOver(met: seq<nat>, owned: map<int, seq<nat>>, start: int, leafAt: seq<nat>, inheritedAt: seq<nat>)
    requires start in owned && Placed(met, owned, leafAt, inheritedAt) && Distinct(owned[start])
    requires forall o | o in owned && o != start :: forall p | p in owned[o] :: p !in owned[start]
    ensures Placed(met, owned - {start}, leafAt + owned[start], inheritedAt)
    ensures Placed(met, owned - {start}, leafAt, inheritedAt + owned[start])
  {
    var own, rest := owned[start], owned - {start};
    forall p ensures InOwned(owned, p) <==> InOwned(rest, p) || p in own {
      if InOwned(owned, p) {
        var o :| o in owned && p in owned[o];
        assert o != start ==> p in rest[o];
      }
      if InOwned(rest, p) {
        var o :| o in rest && p in rest[o];
        assert p in owned[o];
      }
      assert p in own ==> p in owned[start];
    }
    forall p | InOwned(rest, p) ensures p !in own {
      var o :| o in rest && p in rest[o];
    }
    forall p | p in own ensures p !in leafAt && p !in inheritedAt {
      assert InOwned(owned, p);
    }
    DistinctConcat(leafAt, own);
    DistinctConcat(inheritedAt, own);
    assert forall p :: p in leafAt + own <==> p in leafAt || p in own;
    assert forall p :: p in inheritedAt + own <==> p in inheritedAt || p in own;
  }

  lemma OwnedBefore(boxes: seq<nat>, next: nat, at: nat, owned: map<int, seq<nat>>, start: int,
                    leafAt: seq<nat>, inheritedAt: seq<nat>)
    requires SplitAt(boxes, next, at) && start in owned && Placed(boxes[..next], owned, leafAt, inheritedAt)
    ensures forall p | p in owned[start] :: p < at
  {
    forall p | p in owned[start] ensures p < at {
      assert InOwned(owned, p);
      var k :| 0 <= k < next && boxes[..next][k] == p;
    }
  }

  lemma DistinctConcat(a: seq<nat>, b: seq<nat>)
    requires Distinct(a) && Distinct(b) && forall p | p in b :: p !in a
    ensures Distinct(a + b)
  {
    forall i, j | 0 <= i < j < |a + b| ensures (a + b)[i] != (a + b)[j] {
      if i < |a| <= j {
        assert b[j - |a|] in b;
      }
    }
  }

  /** At its closing delimiter a dictionary's boxes are judged by the marks met so far. */
  lemma JudgeAll(text: seq<Token>, marks: seq<nat>, nextMark: nat, at: nat, own: seq<nat>)
    requires Rising(text, marks) && at < |text| && text[at].Close? && Top(text, at) >= 0
    requires SplitAt(marks, nextMark, at) && forall k | k in marks :: k < |text| && text[k].PagesType?
    requires forall p | p in own :: p < at && Top(text, p) == Top(text, at)
    ensures forall p | p in own :: Judged(text, marks, p) <==> Marked(text, marks[..nextMark], Top(text, at))
  {
    hide Stack;
    var start, taken := Top(text, at), marks[..nextMark];
    if k :| 0 <= k < |marks| && Top(text, marks[k]) == start {
      assert marks[k] in marks;
      if k >= nextMark {
        PoppedGone(text, at, marks[k]);
        TopOnStack(text, marks[k]);
      }
      assert taken[k] == marks[k];
    }
    if k :| 0 <= k < |taken| && Top(text, taken[k]) == start {
      assert marks[k] == taken[k];
    }
  }

  lemma TopOnStack(text: seq<Token>, p: nat)
    requires p <= |text| && Top(text, p) >= 0
    ensures Top(text, p) in Stack(text, p)
  {
  }

  function Filed(owned: map<int, seq<nat>>, owner: int, p: nat): map<int, seq<nat>> {
    owned[owner := (if owner in owned then owned[owner] else []) + [p]]
  }

  lemma KeysGrow(keys: set<int>, owner: int)
    requires owner >= -1
    ensures Pending(keys + {owner}) == Pending(keys) + (if owner !in keys && owner >= 0 then 1 else 0)
  {
    if owner !in keys && owner >= 0 {
      assert keys + {owner} - {-1} == (keys - {-1}) + {owner};
    } else {
      assert keys + {owner} - {-1} == keys - {-1};
    }
  }

  /** Filing the next box with the dictionary on top keeps every box in one place. */
  lemma TakeOne(text: seq<Token>, boxes: seq<nat>, next: nat, open: seq<nat>, owned: map<int, seq<nat>>,
                leafAt: seq<nat>, inheritedAt: seq<nat>)
    requires Rising(text, boxes) && next < |boxes| && open == Stack(text, boxes[next])
    requires Owners(text, open, owned) && Placed(boxes[..next], owned, leafAt, inheritedAt)
    ensures var now := Filed(owned, TopOf(open), boxes[next]);
            Owners(text, open, now) && Placed(boxes[..next + 1], now, leafAt, inheritedAt)
  {
    hide Stack;
    var p, owner := boxes[next], TopOf(open);
    var now := Filed(owned, owner, p);
    assert p !in boxes[..next];
    forall q ensures InOwned(now, q) <==> InOwned(owned, q) || q == p {
      if InOwned(owned, q) {
        var o :| o in owned && q in owned[o];
        assert q in now[o];
      }
      assert p in now[owner];
    }
    assert boxes[..next + 1] == boxes[..next] + [p];
    assert forall q :: q in boxes[..next + 1] <==> q in boxes[..next] || q == p;
  }

  lemma OneMark(text: seq<Token>, marks: seq<nat>, k: nat, from: nat)
    requires Rising(text, marks) && k < |marks| && from <= marks[k] && NoDelimiter(text, from, marks[k])
    ensures forall o :: Marked(text, marks[..k + 1], o) <==> Marked(text, marks[..k], o) || o == Top(text, from)
  {
    hide Stack;
    StackSame(text, from, marks[k]);
    forall o ensures Marked(text, marks[..k + 1], o) <==> Marked(text, marks[..k], o) || o == Top(text, from) {
      var taken, before := marks[..k + 1], marks[..k];
      assert taken[k] == marks[k];
      if i :| 0 <= i < |before| && Top(text, before[i]) == o {
        assert taken[i] == before[i];
      }
      if i :| 0 <= i < |taken| && Top(text, taken[i]) == o {
        assert i < k ==> before[i] == taken[i];
      }
    }
  }

  lemma InvStart(task: Task)
    requires Found(task.text, task.boxes, task.marks)
    ensures Inv(task, State([], map[], {}, 0, 0, [], []), 0, 0, 0)
  {
    hide Judged;
  }

  lemma MarkStep(task: Task, st: State, at: nat, markAt: nat, boxAt: nat)
    requires Inv(task, st, at, markAt, boxAt) && st.nextMark < |task.marks|
    requires at <= task.marks[st.nextMark] && NoDelimiter(task.text, at, task.marks[st.nextMark])
    ensures var owner, k := TopOf(st.open), task.marks[st.nextMark];
            var nodes := if owner >= 0 then st.pagesNodes + {owner} else st.pagesNodes;
            Inv(task, st.(pagesNodes := nodes, nextMark := st.nextMark + 1), at, k + 1, boxAt)
  {
    hide Judged, Owners, Placed, Decided, Stack, NoDelimiter, Marked;
    OneMark(task.text, task.marks, st.nextMark, at);
  }

  lemma BoxStep(task: Task, st: State, at: nat, markAt: nat, boxAt: nat)
    requires Inv(task, st, at, markAt, boxAt) && st.next < |task.boxes|
    requires at <= task.boxes[st.next] && NoDelimiter(task.text, at, task.boxes[st.next])
    ensures var owned := Filed(st.owned, TopOf(st.open), task.boxes[st.next]);
            Inv(task, st.(owned := owned, next := st.next + 1), at, markAt, task.boxes[st.next] + 1)
  {
    hide Judged, Owners, Placed, Decided, Stack, NoDelimiter, Marked, Nodes, Filed;
    StackSame(task.text, at, task.boxes[st.next]);
    TakeOne(task.text, task.boxes, st.next, st.open, st.owned, st.leafAt, st.inheritedAt);
  }

  /** With no mark and no box left before the delimiter, everything stands at it. */
  lemma ReachDelimiter(task: Task, st: State, at: nat, markAt: nat, boxAt: nat, d: nat)
    requires Inv(task, st, at, markAt, boxAt) && at <= d <= |task.text| && NoDelimiter(task.text, at, d)
    requires markAt <= d && (st.nextMark < |task.marks| ==> d <= task.marks[st.nextMark])
    requires boxAt <= d && (st.next < |task.boxes| ==> d <= task.boxes[st.next])
    ensures Inv(task, st, d, d, d)
  {
    hide Judged, Owners, Placed, Decided, Stack, NoDelimiter, Nodes;
    StackSame(task.text, at, d);
  }

  /** A dictionary's boxes go to its kind of list. */
  lemma ClassifyStep(task: Task, st: State, d: nat)
    requires Inv(task, st, d, d, d) && d < |task.text| && task.text[d].Close? && Top(task.text, d) in st.owned
    requires Top(task.text, d) >= 0
    ensures var start := Top(task.text, d);
            var own, rest := st.owned[start], st.owned - {start};
            Inv(task, if start in st.pagesNodes then st.(owned := rest, inheritedAt := st.inheritedAt + own)
                      else st.(owned := rest, leafAt := st.leafAt + own), d, d, d)
  {
    hide Judged, Stack, Marked, Placed, Owners, Decided, Distinct, Top;
    var start := Top(task.text, d);
    var own := st.owned[start];
    OwnersApart(task.text, st.open, st.owned, start);
    OwnedBefore(task.boxes, st.next, d, st.owned, start, st.leafAt, st.inheritedAt);
    JudgeAll(task.text, task.marks, st.nextMark, d, own);
    HandOver(task.boxes[..st.next], st.owned, start, st.leafAt, st.inheritedAt);
    DecideMore(task.text, task.marks, st.leafAt, st.inheritedAt, own, start in st.pagesNodes);
  }

  lemma DelimiterStep(task: Task, st: State, d: nat)
    requires Inv(task, st, d, d, d) && d < |task.text| && (task.text[d].Open? || task.text[d].Close?)
    requires task.text[d].Close? ==> Top(task.text, d) == -1 || Top(task.text, d) !in st.owned
    ensures Inv(task, st.(open := Pushed(st.open, task.text[d], d)), d + 1, d + 1, d + 1)
  {
    hide Judged, Placed, Decided, Nodes;
    var next := Pushed(st.open, task.text[d], d);
    forall o | o in st.owned ensures o == -1 || o in next {
      if o != -1 {
        var i :| 0 <= i < |st.open| && st.open[i] == o;
        assert i < |next| ==> next[i] == o;
      }
    }
  }

  class Scan {
    const task: Task
    const leaves0: seq<Size>
    const inherited0: seq<Size>
    var open: seq<nat>
    var owned: map<int, seq<nat>>
    var pagesNodes: set<int>
    var pending: int
    var next: nat
    var nextMark: nat
    var leaves: seq<Size>
    var inherited: seq<Size>
    ghost var leafAt: seq<nat>
    ghost var inheritedAt: seq<nat>

    ghost function View(): State
      reads this
    {
      State(open, owned, pagesNodes, next, nextMark, leafAt, inheritedAt)
    }

    /** The two lists hold the sizes of the boxes decided, and `pending` counts the dictionaries that own one. */
    ghost predicate Listed()
      reads this
    {
      && pending == Pending(owned.Keys)
      && leaves == leaves0 + Sizes(task.text, leafAt)
      && inherited == inherited0 + Sizes(task.text, inheritedAt)
    }

    constructor (task: Task, leaves: seq<Size>, inherited: seq<Size>)
      requires Found(task.text, task.boxes, task.marks)
      ensures Inv(task, View(), 0, 0, 0) && Listed()
      ensures this.task == task && leaves0 == leaves && inherited0 == inherited
    {
      hide Inv;
      this.task, this.leaves0, this.inherited0 := task, leaves, inherited;
      this.leaves, this.inherited := leaves, inherited;
      open, owned, pagesNodes, pending, next, nextMark := [], map[], {}, 0, 0, 0;
      leafAt, inheritedAt := [], [];
      new;
      InvStart(task);
    }

    /** Add a box to its dictionary's list, counting dictionaries that own one. */
    method FileBox(owner: int, p: nat)
      requires owner >= -1 && pending == Pending(owned.Keys)
      modifies this`owned, this`pending
      ensures owned == Filed(old(owned), owner, p) && pending == Pending(owned.Keys)
    {
      hide Pending;
      ghost var keys := owned.Keys;
      KeysGrow(keys, owner);
      if owner !in owned {
        owned := owned[owner := []];
        if owner >= 0 {
          pending := pending + 1;
        }
      }
      owned := owned[owner := owned[owner] + [p]];
      assert owned.Keys == keys + {owner};
    }

    /** Hand the boxes of a dictionary to its kind of list, and forget the dictionary. */
    method Classify(start: int, ghost d: nat)
      requires Listed() && start >= 0 && d < |task.text| && task.text[d].Close? && start == Top(task.text, d)
      requires Inv(task, View().(open := Stack(task.text, d)), d, d, d)
      modifies this`owned, this`pending, this`leaves, this`inherited, this`leafAt, this`inheritedAt
      ensures Listed() && start !in owned
      ensures Inv(task, View().(open := Stack(task.text, d)), d, d, d)
    {
      hide Inv, Pending, Sizes, Stack, Top;
      if start !in owned {
        return;
      }
      ClassifyStep(task, View().(open := Stack(task.text, d)), d);
      var own := owned[start];
      KeysShrink(owned.Keys, start);
      SizesConcat(task.text, leafAt, own);
      SizesConcat(task.text, inheritedAt, own);
      owned := owned - {start};
      pending := pending - 1;
      if start in pagesNodes {
        inherited := inherited + Sizes(task.text, own);
        inheritedAt := inheritedAt + own;
      } else {
        leaves := leaves + Sizes(task.text, own);
        leafAt := leafAt + own;
      }
    }

    /** Everything up to and including one delimiter. */
    method TakeDelimiter(d: nat, ghost from: nat)
      requires Listed() && Inv(task, View(), from, from, from)
      requires from <= d < |task.text| && (task.text[d].Open? || task.text[d].Close?) && NoDelimiter(task.text, from, d)
      modifies this
      ensures Listed() && Inv(task, View(), d + 1, d + 1, d + 1)
    {
      hide Inv, Pending, Sizes, Stack, Filed, NoDelimiter;
      var owner := TopOf(open);
      ghost var markAt, boxAt := from, from;
      while nextMark < |task.marks| && task.marks[nextMark] < d
        invariant from <= markAt <= d && boxAt == from && Inv(task, View(), from, markAt, boxAt)
        invariant owner == TopOf(open)
        invariant Listed()
        decreases |task.marks| - nextMark
      {
        Ahead(task, View(), from, markAt, boxAt, d);
        MarkStep(task, View(), from, markAt, boxAt);
        markAt := task.marks[nextMark] + 1;
        if owner >= 0 {
          pagesNodes := pagesNodes + {owner};
        }
        nextMark := nextMark + 1;
      }
      while next < |task.boxes| && task.boxes[next] < d
        invariant from <= markAt <= d && from <= boxAt <= d && Inv(task, View(), from, markAt, boxAt)
        invariant owner == TopOf(open)
        invariant nextMark < |task.marks| ==> d <= task.marks[nextMark]
        invariant Listed()
        decreases |task.boxes| - next
      {
        Ahead(task, View(), from, markAt, boxAt, d);
        BoxStep(task, View(), from, markAt, boxAt);
        boxAt := task.boxes[next] + 1;
        FileBox(owner, task.boxes[next]);
        next := next + 1;
      }
      ReachDelimiter(task, View(), from, markAt, boxAt, d);
      OpenIsStack(task, View(), d);
      if task.text[d].Open? {
        DelimiterStep(task, View(), d);
        if |open| < MAX_NESTING {
          open := open + [d];
        }
      } else if open != [] {
        var start := open[|open| - 1];
        ghost var whole := open;
        open := open[..|open| - 1];
        Classify(start, d);
        DelimiterStep(task, View().(open := whole), d);
      } else {
        DelimiterStep(task, View(), d);
      }
    }

    /** Boxes past the last delimiter, or in dictionaries that never close, still describe pages. */
    method TakeLeftOver(ghost at: nat)
      requires Listed() && Inv(task, View(), at, at, at)
      requires NoDelimiter(task.text, at, |task.text|) || (next >= |task.boxes| && pending <= 0)
      modifies this
      ensures Found(task.text, task.boxes, task.marks)
      ensures leaves == leaves0 + Sizes(task.text, leafAt) && inherited == inherited0 + Sizes(task.text, inheritedAt)
      ensures Decided(task.text, task.marks, leafAt, inheritedAt) && Partition(task.boxes, leafAt, inheritedAt)
    {
      hide Inv, Judged, Sizes, Placed, Owners, Decided, AllLeaves, NoDelimiter, Found, Partition, Pending;
      InvParts(task, View(), at);
      NonePending(owned.Keys);
      LeftOver(task, View(), at);
      TakeRest();
      TakeUnclosed();
      NothingOwned(task.boxes, map[], leafAt, inheritedAt, task.text, task.marks);
    }

    method TakeRest()
      requires Rising(task.text, task.boxes) && Rising(task.text, task.marks) && next <= |task.boxes|
      requires AllLeaves(task, task.boxes[next..]) && Placed(task.boxes[..next], owned, leafAt, inheritedAt)
      requires Decided(task.text, task.marks, leafAt, inheritedAt) && leaves == leaves0 + Sizes(task.text, leafAt)
      modifies this`next, this`leaves, this`leafAt
      ensures Placed(task.boxes, owned, leafAt, inheritedAt)
      ensures Decided(task.text, task.marks, leafAt, inheritedAt) && leaves == leaves0 + Sizes(task.text, leafAt)
    {
      hide Judged, Sizes, Placed, Decided, AllLeaves;
      while next < |task.boxes|
        invariant next <= |task.boxes| && AllLeaves(task, task.boxes[next..])
        invariant Placed(task.boxes[..next], owned, leafAt, inheritedAt)
        invariant Decided(task.text, task.marks, leafAt, inheritedAt) && leaves == leaves0 + Sizes(task.text, leafAt)
        decreases |task.boxes| - next
      {
        ghost var p := task.boxes[next];
        SizesConcat(task.text, leafAt, [p]);
        OneLeaf(task, next);
        PlaceLeaf(task.boxes, next, owned, leafAt, inheritedAt);
        DecideLeaves(task, leafAt, inheritedAt, [p]);
        leaves := leaves + Sizes(task.text, [task.boxes[next]]);
        leafAt := leafAt + [p];
        next := next + 1;
      }
      LastBoxesTaken(task.boxes);
    }

    method TakeUnclosed()
      requires Rising(task.text, task.marks) && Owners(task.text, open, owned)
      requires Placed(task.boxes, owned, leafAt, inheritedAt) && forall o | o in owned :: AllLeaves(task, owned[o])
      requires Decided(task.text, task.marks, leafAt, inheritedAt) && leaves == leaves0 + Sizes(task.text, leafAt)
      modifies this`leaves, this`leafAt
      ensures Placed(task.boxes, map[], leafAt, inheritedAt)
      ensures Decided(task.text, task.marks, leafAt, inheritedAt) && leaves == leaves0 + Sizes(task.text, leafAt)
    {
      hide Judged, Sizes, Placed, Owners, Decided, AllLeaves;
      var keys := owned.Keys;
      ghost var left := owned;
      while keys != {}
        invariant left.Keys == keys && forall o | o in left :: o in owned && left[o] == owned[o]
        invariant Owners(task.text, open, left) && Placed(task.boxes, left, leafAt, inheritedAt)
        invariant Decided(task.text, task.marks, leafAt, inheritedAt) && leaves == leaves0 + Sizes(task.text, leafAt)
        decreases |keys|
      {
        var o := AnyOf(keys);
        var own := owned[o];
        OwnersApart(task.text, open, left, o);
        HandOver(task.boxes, left, o, leafAt, inheritedAt);
        DecideLeaves(task, leafAt, inheritedAt, own);
        SizesConcat(task.text, leafAt, own);
        leaves := leaves + Sizes(task.text, own);
        leafAt := leafAt + own;
        keys, left := keys - {o}, left - {o};
      }
      assert left == map[];
    }
  }

  lemma InvParts(task: Task, st: State, at: nat)
    requires Inv(task, st, at, at, at)
    ensures Found(task.text, task.boxes, task.marks) && Rising(task.text, task.boxes) && Rising(task.text, task.marks)
    ensures st.next <= |task.boxes| && Owners(task.text, st.open, st.owned)
    ensures Placed(task.boxes[..st.next], st.owned, st.leafAt, st.inheritedAt)
    ensures Decided(task.text, task.marks, st.leafAt, st.inheritedAt)
  {
    hide Owners, Placed, Decided, Nodes;
  }

  lemma NonePending(keys: set<int>)
    ensures Pending(keys) == 0 ==> keys <= {-1}
  {
    if Pending(keys) == 0 {
      assert keys - {-1} == {};
    }
  }

  method AnyOf(keys: set<int>) returns (o: int)
    requires keys != {}
    ensures o in keys
  {
    assert (forall k :: k !in keys) ==> keys == {};
    o :| o in keys;
  }

  lemma OneLeaf(task: Task, next: nat)
    requires Rising(task.text, task.marks) && next < |task.boxes| && AllLeaves(task, task.boxes[next..])
    ensures AllLeaves(task, [task.boxes[next]]) && AllLeaves(task, task.boxes[next + 1..])
  {
    hide Judged;
    var p, left, rest := task.boxes[next], task.boxes[next..], task.boxes[next + 1..];
    assert left == [p] + rest;
    assert p in left && forall q | q in rest :: q in left;
  }

  lemma DecideLeaves(task: Task, leafAt: seq<nat>, inheritedAt: seq<nat>, own: seq<nat>)
    requires Rising(task.text, task.marks) && Decided(task.text, task.marks, leafAt, inheritedAt)
             && AllLeaves(task, own)
    ensures Decided(task.text, task.marks, leafAt + own, inheritedAt)
  {
    hide Judged;
  }

  lemma OpenIsStack(task: Task, st: State, d: nat)
    requires Inv(task, st, d, d, d)
    ensures d <= |task.text| && st.open == Stack(task.text, d) && TopOf(st.open) == Top(task.text, d)
  {
    hide Owners, Placed, Decided, Nodes;
  }

  /** What is next to be taken lies between the last delimiter and this one. */
  lemma Ahead(task: Task, st: State, at: nat, markAt: nat, boxAt: nat, d: nat)
    requires Inv(task, st, at, markAt, boxAt) && at <= markAt && at <= boxAt && NoDelimiter(task.text, at, d)
    ensures st.nextMark < |task.marks| && task.marks[st.nextMark] < d ==>
              at <= task.marks[st.nextMark] && NoDelimiter(task.text, at, task.marks[st.nextMark])
    ensures st.next < |task.boxes| && task.boxes[st.next] < d ==>
              at <= task.boxes[st.next] && NoDelimiter(task.text, at, task.boxes[st.next])
  {
    hide Owners, Placed, Decided, Nodes;
  }

  // ---------- what is found in the text ----------

  predicate UsableBox(token: Token) { token.MediaBox? && token.size.width != 0.0 && token.size.height != 0.0 }

  predicate IsMark(token: Token) { token.PagesType? }

  function Positions(text: seq<Token>, wanted: Token -> bool, from: nat): seq<nat>
    requires from <= |text|
    decreases |text| - from
  {
    if from == |text| then []
    else (if wanted(text[from]) then [from] else []) + Positions(text, wanted, from + 1)
  }

  /** The first positions of the wanted tokens, at most `room` of them, as repeated matching finds them. */
  method FindFirst(text: seq<Token>, wanted: Token -> bool, room: int) returns (found: seq<nat>)
    ensures found == FirstOf(Positions(text, wanted, 0), room)
  {
    found := [];
    var lastIndex := 0;
    ghost var all := Positions(text, wanted, 0);
    while |found| < room && lastIndex < |text|
      invariant (|found| <= room || found == []) && lastIndex <= |text|
                && all == found + Positions(text, wanted, lastIndex)
    {
      if wanted(text[lastIndex]) {
        found := found + [lastIndex];
      }
      lastIndex := lastIndex + 1;
    }
  }

  lemma {:induction false} PositionsRise(text: seq<Token>, wanted: Token -> bool, from: nat)
    requires from <= |text|
    ensures var s := Positions(text, wanted, from);
            && Rising(text, s) && (forall i | 0 <= i < |s| :: from <= s[i])
            && forall p: nat :: p in s <==> from <= p < |text| && wanted(text[p])
    decreases |text| - from
  {
    if from < |text| {
      PositionsRise(text, wanted, from + 1);
      var s, rest := Positions(text, wanted, from), Positions(text, wanted, from + 1);
      assert forall p: nat :: p in s <==> (p == from && wanted(text[from])) || p in rest;
    }
  }

  lemma RisingPrefix(text: seq<Token>, s: seq<nat>, n: nat)
    requires Rising(text, s) && n <= |s|
    ensures Rising(text, s[..n]) && forall p | p in s[..n] :: p in s
  {
  }

  function FirstOf(s: seq<nat>, room: int): (r: seq<nat>)
  {
    if room <= 0 then [] else s[..if |s| < room then |s| else room]
  }

  function TaskOf(text: seq<Token>, taken: nat): Task {
    Task(text, FirstOf(Positions(text, UsableBox, 0), MAX_PAGE_BOXES - taken),
         FirstOf(Positions(text, IsMark, 0), MAX_PAGE_BOXES))
  }

  lemma TaskFound(text: seq<Token>, taken: nat)
    ensures var task := TaskOf(text, taken);
            && Found(task.text, task.boxes, task.marks)
            && (|Positions(text, IsMark, 0)| <= MAX_PAGE_BOXES ==>
                  forall k: nat | k < |text| :: text[k].PagesType? <==> k in task.marks)
  {
    hide Positions;
    var boxes, marks := Positions(text, UsableBox, 0), Positions(text, IsMark, 0);
    PositionsRise(text, UsableBox, 0);
    PositionsRise(text, IsMark, 0);
    var room := MAX_PAGE_BOXES - taken;
    RisingPrefix(text, boxes, if room <= 0 then 0 else if |boxes| < room then |boxes| else room);
    RisingPrefix(text, marks, if |marks| < MAX_PAGE_BOXES then |marks| else MAX_PAGE_BOXES);
    assert boxes[..0] == [];
    assert |marks| <= MAX_PAGE_BOXES ==> FirstOf(marks, MAX_PAGE_BOXES) == marks;
  }

  // ---------- what no closing delimiter judges ----------

  ghost predicate AllLeaves(task: Task, s: seq<nat>)
    requires Rising(task.text, task.marks)
  {
    forall p | p in s :: p < |task.text| && !Judged(task.text, task.marks, p)
  }

  /** Boxes past the last delimiter, or in no dictionary that closes, count as leaves. */
  lemma LeftOver(task: Task, st: State, at: nat)
    requires Inv(task, st, at, at, at)
    requires NoDelimiter(task.text, at, |task.text|) || (st.next == |task.boxes| && st.owned.Keys <= {-1})
    ensures AllLeaves(task, task.boxes[st.next..])
    ensures forall o | o in st.owned :: AllLeaves(task, st.owned[o])
  {
    hide Stack, Marked, Placed, Decided, Nodes;
    forall p | p in task.boxes[st.next..] ensures p < |task.text| && !Judged(task.text, task.marks, p) {
      var i :| 0 <= i < |task.boxes[st.next..]| && task.boxes[st.next..][i] == p;
      assert task.boxes[st.next + i] == p;
    }
    forall o, p | o in st.owned && p in st.owned[o] ensures p < |task.text| && !Judged(task.text, task.marks, p) {
      if o != -1 {
        NeverPopped(task.text, p, at);
      }
    }
  }

  /** What is still on the stack when the delimiters run out was never popped. */
  lemma NeverPopped(text: seq<Token>, p: nat, at: nat)
    requires p < |text| && at <= |text| && NoDelimiter(text, at, |text|)
    requires Top(text, p) in Stack(text, at)
    ensures !Popped(text, p)
  {
    hide Stack;
    if Popped(text, p) {
      var d: nat :| p < d < |text| && text[d].Close? && Top(text, d) == Top(text, p);
      PoppedGone(text, d, at);
    }
  }

  lemma PlaceLeaf(boxes: seq<nat>, next: nat, owned: map<int, seq<nat>>, leafAt: seq<nat>, inheritedAt: seq<nat>)
    requires next < |boxes| && (forall i, j | 0 <= i < j < |boxes| :: boxes[i] < boxes[j])
    requires Placed(boxes[..next], owned, leafAt, inheritedAt)
    ensures Placed(boxes[..next + 1], owned, leafAt + [boxes[next]], inheritedAt)
  {
    hide InOwned;
    var p := boxes[next];
    assert p !in boxes[..next] && boxes[..next + 1] == boxes[..next] + [p];
    DistinctConcat(leafAt, [p]);
  }

  /** Every box is in exactly one of the two lists. */
  ghost predicate Partition(boxes: seq<nat>, leafAt: seq<nat>, inheritedAt: seq<nat>) {
    && Distinct(leafAt) && Distinct(inheritedAt)
    && (forall p :: p in boxes <==> p in leafAt || p in inheritedAt)
    && (forall p | p in leafAt :: p !in inheritedAt)
  }

  lemma NothingOwned(boxes: seq<nat>, owned: map<int, seq<nat>>, leafAt: seq<nat>, inheritedAt: seq<nat>,
                     text: seq<Token>, marks: seq<nat>)
    requires owned == map[] && Placed(boxes, owned, leafAt, inheritedAt)
    requires Rising(text, marks) && Decided(text, marks, leafAt, inheritedAt)
    ensures Partition(boxes, leafAt, inheritedAt)
  {
    hide Judged;
  }

  lemma LastBoxesTaken(boxes: seq<nat>)
    ensures boxes[..|boxes|] == boxes
  {
  }

  // ---------- the outcome in plain terms ----------

  /** How many dictionaries are open at p. */
  ghost function Nesting(text: seq<Token>, p: nat): nat
    requires p <= |text|
  {
    |set o: int | 0 <= o < p && Encloses(text, o, p)|
  }

  /** Fewer than 4096 dictionaries are open wherever one opens, and the text has at most 2000 page-tree marks. */
  ghost predicate WithinLimits(text: seq<Token>) {
    && (forall p: nat | p < |text| && text[p].Open? :: Nesting(text, p) < 4096)
    && |set k: nat | k < |text| && text[k].PagesType?| <= 2000
  }

  ghost function ToSet(s: seq<nat>): (r: set<nat>)
    ensures forall p :: p in r <==> p in s
  {
    set p | p in s
  }

  lemma {:induction false} DistinctCount(s: seq<nat>)
    requires Distinct(s)
    ensures |ToSet(s)| == |s|
    decreases |s|
  {
    if s == [] {
      assert ToSet(s) == {};
    } else {
      var n := |s| - 1;
      DistinctCount(s[..n]);
      assert s == s[..n] + [s[n]] && s[n] !in s[..n];
      assert ToSet(s) == ToSet(s[..n]) + {s[n]};
    }
  }

  lemma HoldsCount(text: seq<Token>, p: nat, stack: seq<nat>)
    requires p <= |text| && Holds(text, p, stack)
    ensures |stack| == Nesting(text, p)
  {
    DistinctCount(stack);
    var outer := set o: int | 0 <= o < p && Encloses(text, o, p);
    forall o: int
      ensures o in outer <==> o >= 0 && o in stack
    {
      if Encloses(text, o, p) {
        EnclosesBefore(text, o, p);
      }
      if o in stack {
        var i :| 0 <= i < |stack| && stack[i] == o;
        EnclosesBefore(text, o, p);
      }
    }
    SameCount(ToSet(stack), outer);
  }

  lemma {:induction false} SameCount(xs: set<nat>, ys: set<int>)
    requires forall y: int :: y in ys <==> y >= 0 && y in xs
    ensures |xs| == |ys|
    decreases |xs|
  {
    assert (forall x :: x !in xs) ==> xs == {};
    if xs == {} {
      assert forall y :: y !in ys;
      assert ys == {};
    } else {
      var x :| x in xs;
      SameCount(xs - {x}, ys - {x});
    }
  }

  lemma {:induction false} NestingShallow(text: seq<Token>, p: nat)
    requires p <= |text| && forall q: nat | q < p && text[q].Open? :: Nesting(text, q) < 4096
    ensures Holds(text, p, Stack(text, p))
    decreases p
  {
    hide Nesting, Holds;
    if p == 0 {
      NothingEncloses(text);
    } else {
      NestingShallow(text, p - 1);
      HoldsCount(text, p - 1, Stack(text, p - 1));
      HoldsStep(text, p - 1, Stack(text, p - 1));
    }
  }

  lemma LimitsMeant(text: seq<Token>)
    requires WithinLimits(text)
    ensures Shallow(text) && |Positions(text, IsMark, 0)| <= MAX_PAGE_BOXES
  {
    hide Stack, Holds, Positions, Nesting;
    forall p: nat | p < |text| && text[p].Open?
      ensures |Stack(text, p)| < 4096
    {
      NestingShallow(text, p);
      HoldsCount(text, p, Stack(text, p));
    }
    PositionsRise(text, IsMark, 0);
    var marks := Positions(text, IsMark, 0);
    DistinctCount(marks);
    assert ToSet(marks) == set k: nat | k < |text| && text[k].PagesType?;
  }

  /** A list grew by the sizes of the boxes at these places, in that order; boxes of no width or height are none. */
  ghost predicate GrewBy(text: seq<Token>, before: seq<Size>, after: seq<Size>, at: seq<nat>) {
    && |after| == |before| + |at| && after[..|before|] == before && Distinct(at)
    && forall i | 0 <= i < |at| ::
         && at[i] < |text| && text[at[i]].MediaBox? && after[|before| + i] == text[at[i]].size
         && text[at[i]].size.width != 0.0 && text[at[i]].size.height != 0.0
  }

  /** The place of a box that counts: none is left over but those after the first 2000 boxes. */
  ghost predicate Taken(text: seq<Token>, p: nat, leafAt: seq<nat>, inheritedAt: seq<nat>, boxes: nat)
    requires p < |text|
  {
    text[p].MediaBox? && text[p].size.width != 0.0 && text[p].size.height != 0.0 ==>
      || p in leafAt || p in inheritedAt
      || (boxes >= 2000 && (forall q | q in leafAt :: q < p) && forall q | q in inheritedAt :: q < p)
  }

  ghost predicate AllTaken(text: seq<Token>, leafAt: seq<nat>, inheritedAt: seq<nat>, boxes: nat) {
    forall p: nat | p < |text| :: Taken(text, p, leafAt, inheritedAt, boxes)
  }

  /**
   * Each box of the text is in one list at most, and in one unless the lists hold 2000 already; within
   * the limits a box is inherited exactly when the simple definition says so.
   */
  ghost predicate Divided(text: seq<Token>, leaves0: seq<Size>, inherited0: seq<Size>, leaves: seq<Size>,
                          inherited: seq<Size>, leafAt: seq<nat>, inheritedAt: seq<nat>) {
    && GrewBy(text, leaves0, leaves, leafAt) && GrewBy(text, inherited0, inherited, inheritedAt)
    && (forall p | p in leafAt :: p !in inheritedAt)
    && AllTaken(text, leafAt, inheritedAt, |leaves| + |inherited|)
    && (|leaves| + |inherited| <= 2000 || (leaves == leaves0 && inherited == inherited0))
    && (WithinLimits(text) ==>
          && (forall p | p in leafAt :: !Inherited(text, p))
          && (forall p | p in inheritedAt :: Inherited(text, p)))
  }

  lemma SizesGrew(text: seq<Token>, before: seq<Size>, at: seq<nat>)
    requires Distinct(at)
    requires forall p | p in at :: p < |text| && UsableBox(text[p])
    ensures GrewBy(text, before, before + Sizes(text, at), at)
  {
    assert forall i | 0 <= i < |at| :: at[i] in at;
  }

  lemma PartitionCount(boxes: seq<nat>, leafAt: seq<nat>, inheritedAt: seq<nat>)
    requires Distinct(boxes) && Partition(boxes, leafAt, inheritedAt)
    ensures |boxes| == |leafAt| + |inheritedAt|
  {
    DistinctConcat(leafAt, inheritedAt);
    DistinctCount(boxes);
    DistinctCount(leafAt + inheritedAt);
    assert ToSet(boxes) == ToSet(leafAt + inheritedAt);
  }

  lemma BoxesTaken(text: seq<Token>, taken: nat)
    ensures var boxes := TaskOf(text, taken).boxes;
            && Distinct(boxes) && (forall p | p in boxes :: p < |text| && UsableBox(text[p]))
            && (|boxes| + taken <= 2000 || boxes == [])
            && forall p: nat | p < |text| && UsableBox(text[p]) ::
                 p in boxes || (|boxes| + taken >= 2000 && forall q | q in boxes :: q < p)
  {
    hide Positions;
    PositionsRise(text, UsableBox, 0);
    var all, room := Positions(text, UsableBox, 0), MAX_PAGE_BOXES - taken;
    var boxes := TaskOf(text, taken).boxes;
    assert boxes == all[..|boxes|];
    forall p: nat | p < |text| && UsableBox(text[p]) && p !in boxes
      ensures |boxes| + taken >= 2000 && forall q | q in boxes :: q < p
    {
      var i :| 0 <= i < |all| && all[i] == p;
      assert forall k | 0 <= k < |boxes| :: all[k] == boxes[k] && boxes[k] in boxes;
      assert |boxes| <= i;
    }
  }

  lemma DividedBy(text: seq<Token>, leaves0: seq<Size>, inherited0: seq<Size>, leafAt: seq<nat>, inheritedAt: seq<nat>)
    requires Partition(TaskOf(text, |leaves0| + |inherited0|).boxes, leafAt, inheritedAt)
    requires WithinLimits(text) ==>
               (forall p | p in leafAt :: p < |text| && !Inherited(text, p))
               && (forall p | p in inheritedAt :: p < |text| && Inherited(text, p))
    ensures Divided(text, leaves0, inherited0, leaves0 + Sizes(text, leafAt), inherited0 + Sizes(text, inheritedAt),
                    leafAt, inheritedAt)
  {
    hide TaskOf, WithinLimits, Inherited, Sizes, UsableBox, GrewBy, Distinct;
    var taken := |leaves0| + |inherited0|;
    var boxes := TaskOf(text, taken).boxes;
    BoxesTaken(text, taken);
    PartitionCount(boxes, leafAt, inheritedAt);
    SizesGrew(text, leaves0, leafAt);
    SizesGrew(text, inherited0, inheritedAt);
    var count := taken + |boxes|;
    forall p: nat | p < |text|
      ensures Taken(text, p, leafAt, inheritedAt, count)
    {
      UsableMeans(text[p]);
    }
    if boxes == [] {
      assert leafAt == [] && inheritedAt == [];
      assert leaves0 + Sizes(text, leafAt) == leaves0 && inherited0 + Sizes(text, inheritedAt) == inherited0;
    }
  }

  lemma UsableMeans(token: Token)
    ensures UsableBox(token) <==> token.MediaBox? && token.size.width != 0.0 && token.size.height != 0.0
  {
  }

  /** Split every page box of the text between the pages' own boxes and those of the page tree. */
  method CollectPageBoxes(text: seq<Token>, leaves0: seq<Size>, inherited0: seq<Size>)
    returns (leaves: seq<Size>, inherited: seq<Size>)
    ensures exists leafAt, inheritedAt :: Divided(text, leaves0, inherited0, leaves, inherited, leafAt, inheritedAt)
  {
    hide Positions, Inv, Judged, Inherited, Sizes, Shallow, Found, Placed, Decided, Owners, NoDelimiter, Divided,
         WithinLimits, Partition;
    ghost var taken := |leaves0| + |inherited0|;
    TaskFound(text, taken);
    var boxes := FindFirst(text, UsableBox, MAX_PAGE_BOXES - (|leaves0| + |inherited0|));
    if boxes == [] {
      NoBoxes(text, leaves0, inherited0);
      DividedBy(text, leaves0, inherited0, [], []);
      return leaves0, inherited0;
    }
    var marks := FindFirst(text, IsMark, MAX_PAGE_BOXES);
    var task := Task(text, boxes, marks);
    assert task == TaskOf(text, taken);
    var scan := new Scan(task, leaves0, inherited0);
    var lastIndex := 0;
    var found := true;
    while found && (scan.next < |boxes| || scan.pending > 0)
      invariant fresh(scan) && scan.task == task && scan.leaves0 == leaves0 && scan.inherited0 == inherited0
      invariant 0 <= lastIndex <= |text| && scan.Listed()
                && Inv(scan.task, scan.View(), lastIndex, lastIndex, lastIndex)
      invariant !found ==> NoDelimiter(text, lastIndex, |text|)
      decreases found, |text| - lastIndex
    {
      var d := NextDelimiter(text, lastIndex);
      if d < |text| {
        scan.TakeDelimiter(d, lastIndex);
        lastIndex := d + 1;
        assert Inv(scan.task, scan.View(), lastIndex, lastIndex, lastIndex);
      } else {
        found := false;
      }
    }
    scan.TakeLeftOver(lastIndex);
    JudgedAll(task, scan.leafAt, scan.inheritedAt);
    if WithinLimits(text) {
      LimitsMeant(text);
    }
    DividedBy(text, leaves0, inherited0, scan.leafAt, scan.inheritedAt);
    return scan.leaves, scan.inherited;
  }

  lemma NoBoxes(text: seq<Token>, leaves0: seq<Size>, inherited0: seq<Size>)
    ensures Partition([], [], []) && leaves0 + Sizes(text, []) == leaves0 && inherited0 + Sizes(text, []) == inherited0
  {
  }

  /** The next delimiter from an index on, or the end of the text. */
  method NextDelimiter(text: seq<Token>, from: nat) returns (d: nat)
    requires from <= |text|
    ensures from <= d <= |text| && NoDelimiter(text, from, d)
    ensures d < |text| ==> text[d].Open? || text[d].Close?
  {
    d := from;
    while d < |text| && !text[d].Open? && !text[d].Close?
      invariant from <= d <= |text| && NoDelimiter(text, from, d)
    {
      d := d + 1;
    }
  }

  lemma JudgedAll(task: Task, leafAt: seq<nat>, inheritedAt: seq<nat>)
    requires Found(task.text, task.boxes, task.marks) && Decided(task.text, task.marks, leafAt, inheritedAt)
    requires Partition(task.boxes, leafAt, inheritedAt)
    ensures Shallow(task.text) && (forall k: nat | k < |task.text| :: task.text[k].PagesType? <==> k in task.marks) ==>
              (forall p | p in leafAt :: p < |task.text| && !Inherited(task.text, p))
              && (forall p | p in inheritedAt :: p < |task.text| && Inherited(task.text, p))
  {
    hide Judged, Inherited, Shallow;
    if Shallow(task.text) && (forall k: nat | k < |task.text| :: task.text[k].PagesType? <==> k in task.marks) {
      forall p | p in leafAt || p in inheritedAt
        ensures p < |task.text| && (Judged(task.text, task.marks, p) <==> Inherited(task.text, p))
      {
        assert p in task.boxes;
        JudgedIsInherited(task.text, task.marks, p);
      }
    }
  }
}
