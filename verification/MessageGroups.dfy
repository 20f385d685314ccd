/** Stacking consecutive messages of one author. The greedy loop loses nothing and no valid stacking
    uses fewer groups, for message times in any order. */
module MessageGroups {

  datatype Message = Message(author: string, at: int, kind: string, text: string)

  /** `at`, `author` and `kind` are those of the first message. */
  datatype Group = Group(author: string, at: int, kind: string, base: Message, children: seq<Message>)

  const FIVE_MINUTES: int := 300_000

  /** A stack: one message, or text messages of one author, each under five minutes after the first. */
  predicate ValidRun(ms: seq<Message>) {
    && ms != []
    && (|ms| > 1 ==> forall i :: 0 <= i < |ms| ==>
         ms[i].author == ms[0].author && ms[i].kind == "text" && ms[i].at - ms[0].at < 5 * 60 * 1000)
  }

  predicate ValidGroup(g: Group) {
    && ValidRun(g.children) && g.base == g.children[0]
    && g.author == g.base.author && g.at == g.base.at && g.kind == g.base.kind
  }

  predicate Joins(last: Group, m: Message) {
    last.author == m.author && m.kind == "text" && last.kind == "text" && m.at - last.at < FIVE_MINUTES
  }

  /** Valid groups, none of which could have taken the first message of the next. */
  predicate IsGreedy(out: seq<Group>) {
    && (forall i :: 0 <= i < |out| ==> ValidGroup(out[i]))
    && (forall i :: 0 < i < |out| ==> Apart(out, i))
  }

  predicate Apart(out: seq<Group>, i: nat)
    requires 0 < i < |out|
  {
    out[i].children != [] ==> !Joins(out[i - 1], out[i].children[0])
  }

  lemma {:induction false} RestIsGreedy(out: seq<Group>)
    requires IsGreedy(out) && out != []
    ensures IsGreedy(out[1..])
  {
    forall i | 0 < i < |out| - 1 ensures Apart(out[1..], i) {
      assert Apart(out, i + 1);
    }
  }

  function Flatten(out: seq<Group>): seq<Message> {
    if out == [] then [] else out[0].children + Flatten(out[1..])
  }

  lemma {:induction false} FlattenAppend(out: seq<Group>, g: Group)
    ensures Flatten(out + [g]) == Flatten(out) + g.children
  {
    if out == [] {
      assert out + [g] == [g] && [g][1..] == [];
    } else {
      assert (out + [g])[1..] == out[1..] + [g];
      FlattenAppend(out[1..], g);
    }
  }

  function Extended(out: seq<Group>, m: Message): seq<Group>
    requires out != []
  {
    var last := out[|out| - 1];
    out[..|out| - 1] + [last.(children := last.children + [m])]
  }

  lemma {:induction false} ExtendKeeps(out: seq<Group>, m: Message)
    requires IsGreedy(out) && out != [] && Joins(out[|out| - 1], m)
    ensures IsGreedy(Extended(out, m)) && Flatten(Extended(out, m)) == Flatten(out) + [m]
  {
    var n, last := |out| - 1, out[|out| - 1];
    var longer := last.(children := last.children + [m]);
    assert ValidGroup(longer) && longer.children[0] == last.children[0];
    assert out == out[..n] + [last];
    FlattenAppend(out[..n], last);
    FlattenAppend(out[..n], longer);
    forall i | 0 < i < |out| ensures Apart(Extended(out, m), i) {
      assert Apart(out, i);
    }
  }

  lemma {:induction false} AppendKeeps(out: seq<Group>, m: Message)
    requires IsGreedy(out) && (out != [] ==> !Joins(out[|out| - 1], m))
    ensures var g := Group(m.author, m.at, m.kind, m, [m]);
            IsGreedy(out + [g]) && Flatten(out + [g]) == Flatten(out) + [m]
  {
    var g := Group(m.author, m.at, m.kind, m, [m]);
    FlattenAppend(out, g);
    forall i | 0 < i <= |out| ensures Apart(out + [g], i) {
      assert i < |out| ==> Apart(out, i);
    }
  }

  /** The source's loop; `last` is the last group of `out`. */
  method GroupMessages(msgs: seq<Message>) returns (out: seq<Group>)
    ensures Flatten(out) == msgs
    ensures IsGreedy(out)
  {
    out := [];
    for i := 0 to |msgs|
      invariant Flatten(out) == msgs[..i]
      invariant IsGreedy(out)
    {
      var m := msgs[i];
      if out != [] && Joins(out[|out| - 1], m) {
        ExtendKeeps(out, m);
        var last := out[|out| - 1];
        out := out[..|out| - 1] + [last.(children := last.children + [m])];
      } else {
        AppendKeeps(out, m);
        out := out + [Group(m.author, m.at, m.kind, m, [m])];
      }
      assert msgs[..i + 1] == msgs[..i] + [m];
    }
    assert msgs[..|msgs|] == msgs;
  }

  // ---------- Optimality ----------

  function Concat(parts: seq<seq<Message>>): seq<Message> {
    if parts == [] then [] else parts[0] + Concat(parts[1..])
  }

  /** Any way of cutting messages into valid stacks. */
  predicate IsStacking(parts: seq<seq<Message>>, msgs: seq<Message>) {
    Concat(parts) == msgs && forall i :: 0 <= i < |parts| ==> ValidRun(parts[i])
  }

  /** No message of `left` that could share a stack with `next` is later than it. */
  predicate Behind(left: seq<Message>, next: Message) {
    forall b :: 0 <= b < |left| && left[b].author == next.author && next.kind == "text" ==> left[b].at <= next.at
  }

  /** A stack that spans `left` and reaches into the first greedy group stays inside that group. */
  lemma {:induction false} StackStaysInside(out: seq<Group>, left: seq<Message>, q: seq<Message>)
    requires IsGreedy(out) && out != [] && ValidRun(q)
    requires |left| < |q| <= |left + Flatten(out)| && q == (left + Flatten(out))[..|q|]
    requires Behind(left, out[0].base)
    ensures |q| <= |left| + |out[0].children|
  {
    var g := out[0];
    assert q[|left|] == g.children[0];
    assert left != [] ==> left[0] == q[0];
    if |out| == 1 {
      assert Flatten(out) == g.children;
    } else {
      assert Apart(out, 1);
      assert (left + Flatten(out))[|left| + |g.children|] == out[1].children[0];
    }
  }

  /** What the greedy group has left over is behind the next greedy group. */
  lemma {:induction false} LeftoverBehind(out: seq<Group>, n: nat)
    requires IsGreedy(out) && |out| > 1 && 0 < n <= |out[0].children|
    ensures Behind(out[0].children[n..], out[1].base)
  {
    assert Apart(out, 1) && out[1].base == out[1].children[0];
  }

  /** Taking the first part away leaves less of `left`, or the first group's leftover and the others. */
  lemma {:induction false} FirstPart(out: seq<Group>, left: seq<Message>, parts: seq<seq<Message>>)
    requires IsGreedy(out) && out != [] && parts != [] && IsStacking(parts, left + Flatten(out))
    requires Behind(left, out[0].base)
    ensures |parts[0]| <= |left| ==> Concat(parts[1..]) == left[|parts[0]|..] + Flatten(out)
    ensures |parts[0]| > |left| ==>
              var n := |parts[0]| - |left|;
              n <= |out[0].children| && Concat(parts[1..]) == out[0].children[n..] + Flatten(out[1..])
  {
    var q, rest := parts[0], left + Flatten(out);
    assert rest[..|q|] == q && rest[|q|..] == Concat(parts[1..]);
    if |q| <= |left| {
      assert rest[|q|..] == left[|q|..] + Flatten(out);
    } else {
      StackStaysInside(out, left, q);
      assert rest[|q|..] == out[0].children[|q| - |left|..] + Flatten(out[1..]);
    }
  }

  /** The greedy groups of what follows `left` are no more than the parts of any stacking of both. */
  lemma {:induction false} StaysAhead(out: seq<Group>, left: seq<Message>, parts: seq<seq<Message>>)
    requires IsGreedy(out) && IsStacking(parts, left + Flatten(out))
    requires out != [] ==> Behind(left, out[0].base)
    ensures |out| <= |parts|
    decreases |parts|
  {
    if out != [] {
      assert out[0].children[0] in left + Flatten(out);
      var q := parts[0];
      FirstPart(out, left, parts);
      if |q| <= |left| {
        StaysAhead(out, left[|q|..], parts[1..]);
      } else {
        var n := |q| - |left|;
        if |out| > 1 { LeftoverBehind(out, n); }
        RestIsGreedy(out);
        StaysAhead(out[1..], out[0].children[n..], parts[1..]);
      }
    }
  }

  /** Optimality: no stacking of the same messages has fewer parts than the greedy result. */
  lemma {:induction false} GreedyIsOptimal(out: seq<Group>, parts: seq<seq<Message>>)
    requires IsGreedy(out) && IsStacking(parts, Flatten(out))
    ensures |out| <= |parts|
  {
    assert [] + Flatten(out) == Flatten(out);
    StaysAhead(out, [], parts);
  }

  /** The result is determined: two greedy groupings of the same messages are the same. */
  lemma {:induction false} GreedyIsUnique(x: seq<Group>, y: seq<Group>)
    requires IsGreedy(x) && IsGreedy(y) && Flatten(x) == Flatten(y)
    ensures x == y
    decreases |x|
  {
    assert x != [] ==> Flatten(x)[0] == x[0].children[0];
    assert y != [] ==> Flatten(y)[0] == y[0].children[0];
    if x != [] {
      SameHead(x, y);
      SameHead(y, x);
      assert Flatten(x)[..|x[0].children|] == x[0].children && Flatten(y)[..|y[0].children|] == y[0].children;
      assert Flatten(x[1..]) == Flatten(x)[|x[0].children|..] && Flatten(y[1..]) == Flatten(y)[|y[0].children|..];
      RestIsGreedy(x);
      RestIsGreedy(y);
      GreedyIsUnique(x[1..], y[1..]);
      assert x == [x[0]] + x[1..] && y == [y[0]] + y[1..];
    }
  }

  lemma {:induction false} SameHead(x: seq<Group>, y: seq<Group>)
    requires IsGreedy(x) && IsGreedy(y) && Flatten(x) == Flatten(y) && x != [] && y != []
    ensures |x[0].children| <= |y[0].children|
  {
    StackStaysInside(y, [], x[0].children);
  }
}
