/**
 An abstraction of the streaming XML writer the emitters write into.

 The writer is reduced to the trace of calls it receives: `begin_elem(name)`
 becomes `Begin(name)`, `text(s)` becomes `Text(s)` and `end_elem()` becomes
 `End`. Escaping and byte encoding are not modelled. A write can fail (an I/O
 error of the underlying stream); this is modelled by a writer that accepts
 only a fixed number of further events (`room`) and fails on the next one.
 */
module XmlTrace {

  datatype XmlEvent = Begin(name: string) | Text(content: string) | End

  /** The events written so far, and how many more the stream accepts. */
  datatype Writer = Writer(out: seq<XmlEvent>, room: nat)

  /** The result of a write: the writer after success, or the writer as it
      stood when the failing write was attempted. Like Rust's `io::Result`,
      it can be propagated with `:-`. */
  datatype Step = Wrote(writer: Writer) | Failed(writer: Writer) {
    predicate IsFailure() {
      Failed?
    }

    function PropagateFailure(): Step
      requires Failed?
    {
      this
    }

    function Extract(): Writer
      requires Wrote?
    {
      writer
    }
  }

  /** One call on the writer: it succeeds while there is room, and a failing
      call writes nothing. */
  function Put(w: Writer, e: XmlEvent): Step
  {
    if w.room == 0 then Failed(w) else Wrote(Writer(w.out + [e], w.room - 1))
  }

  /** Writing a trace event by event, aborting on the first failure. The
      contract is the fault model in closed form: either the whole trace is
      appended, or exactly the first `room` events of it are and the write
      fails. */
  function PutAll(w: Writer, t: seq<XmlEvent>): (r: Step)
    ensures |t| <= w.room ==> r == Wrote(Writer(w.out + t, w.room - |t|))
    ensures w.room < |t| ==> r == Failed(Writer(w.out + t[..w.room], 0))
    decreases |t|
  {
    if |t| == 0 then
      assert w.out + t == w.out;
      Wrote(w)
    else
      var w1 :- Put(w, t[0]);
      assert w.out + t == w1.out + t[1..];
      assert w.room < |t| ==> t[..w.room] == [t[0]] + t[1..][..w.room - 1];
      PutAll(w1, t[1..])
  }

  /** Continue with the trace `t` after `s`, unless `s` already failed. */
  function AndThen(s: Step, t: seq<XmlEvent>): Step
  {
    match s
    case Failed(_) => s
    case Wrote(w) => PutAll(w, t)
  }

  /** Writing `a + b` is writing `a` and then, if that succeeded, `b`. */
  lemma {:induction false} PutAllAppend(w: Writer, a: seq<XmlEvent>, b: seq<XmlEvent>)
    ensures PutAll(w, a + b) == AndThen(PutAll(w, a), b)
  {
    if |a| <= w.room {
      assert w.out + a + b == w.out + (a + b);
      if w.room - |a| < |b| {
        assert (a + b)[..w.room] == a + b[..w.room - |a|];
      }
    } else {
      assert (a + b)[..w.room] == a[..w.room];
    }
  }

  /** From a fresh writer of capacity `k`, a write of `t` either succeeds
      with exactly `t` or fails having written a strict prefix of `t`. */
  lemma PutAllFresh(t: seq<XmlEvent>, k: nat)
    ensures PutAll(Writer([], k), t).Wrote? <==> |t| <= k
    ensures PutAll(Writer([], k), t).Wrote? ==> PutAll(Writer([], k), t).writer.out == t
    ensures PutAll(Writer([], k), t).Failed? ==>
              var out := PutAll(Writer([], k), t).writer.out;
              |out| < |t| && out == t[..|out|]
  {
  }

  // ---------------------------------------------------------------------
  // Nesting

  /** How an event changes the number of open elements. */
  function Delta(e: XmlEvent): int
  {
    match e
    case Begin(_) => 1
    case Text(_) => 0
    case End => -1
  }

  /** The number of elements a trace leaves open (negative if it closes more
      than it opens). */
  function Depth(t: seq<XmlEvent>): int
  {
    if |t| == 0 then 0 else Delta(t[0]) + Depth(t[1..])
  }

  /** Every `End` closes an element opened earlier in the trace, and every
      element the trace opens it also closes. */
  ghost predicate Balanced(t: seq<XmlEvent>)
  {
    && Depth(t) == 0
    && forall i :: 0 <= i <= |t| ==> Depth(t[..i]) >= 0
  }

  lemma {:induction false} DepthAppend(a: seq<XmlEvent>, b: seq<XmlEvent>)
    ensures Depth(a + b) == Depth(a) + Depth(b)
    decreases |a|
  {
    if |a| == 0 {
      assert a + b == b;
    } else {
      assert (a + b)[1..] == a[1..] + b;
      DepthAppend(a[1..], b);
    }
  }

  lemma BalancedAppend(a: seq<XmlEvent>, b: seq<XmlEvent>)
    requires Balanced(a) && Balanced(b)
    ensures Balanced(a + b)
  {
    DepthAppend(a, b);
    forall i | 0 <= i <= |a + b|
      ensures Depth((a + b)[..i]) >= 0
    {
      if i <= |a| {
        assert (a + b)[..i] == a[..i];
      } else {
        assert (a + b)[..i] == a + b[..i - |a|];
        DepthAppend(a, b[..i - |a|]);
      }
    }
  }

  /** Enclosing a balanced trace in one element keeps it balanced. */
  lemma BalancedWrap(name: string, t: seq<XmlEvent>)
    requires Balanced(t)
    ensures Balanced([Begin(name)] + t + [End])
  {
    var w := [Begin(name)] + t + [End];
    DepthAppend([Begin(name)] + t, [End]);
    DepthAppend([Begin(name)], t);
    forall i | 0 <= i <= |w|
      ensures Depth(w[..i]) >= 0
    {
      if 1 <= i <= |t| + 1 {
        assert w[..i] == [Begin(name)] + t[..i - 1];
        DepthAppend([Begin(name)], t[..i - 1]);
      } else if i == |w| {
        assert w[..i] == w;
      }
    }
  }

  /** A leaf element: `<name>text</name>`. */
  function Leaf(name: string, text: string): seq<XmlEvent>
  {
    [Begin(name), Text(text), End]
  }

  lemma LeafBalanced(name: string, text: string)
    ensures Balanced(Leaf(name, text))
  {
    var inner := [Text(text)];
    assert Balanced(inner) by {
      assert inner[..0] == [] && inner[..1] == inner;
    }
    BalancedWrap(name, inner);
    assert Leaf(name, text) == [Begin(name)] + inner + [End];
  }

  /** `begin_elem(name)?; text(text)?; end_elem()`: writing one leaf
      element, aborting on the first failed write. */
  function LeafToXml(name: string, text: string, w: Writer): (r: Step)
    ensures r == PutAll(w, Leaf(name, text))
  {
    var w1 :- Put(w, Begin(name));
    var w2 :- Put(w1, Text(text));
    Put(w2, End)
  }

  // ---------------------------------------------------------------------
  // Concatenation of per-item traces

  function Concat<T>(ss: seq<seq<T>>): seq<T>
  {
    if |ss| == 0 then [] else ss[0] + Concat(ss[1..])
  }

  lemma {:induction false} ConcatAppend<T>(a: seq<seq<T>>, b: seq<seq<T>>)
    ensures Concat(a + b) == Concat(a) + Concat(b)
    decreases |a|
  {
    if |a| == 0 {
      assert a + b == b;
    } else {
      assert (a + b)[1..] == a[1..] + b;
      ConcatAppend(a[1..], b);
    }
  }

  /** Each part appears in the concatenation, contiguously, right after the
      parts before it. */
  lemma ConcatSlice<T>(ss: seq<seq<T>>, i: nat)
    requires i < |ss|
    ensures var o := |Concat(ss[..i])|;
            o + |ss[i]| <= |Concat(ss)| && Concat(ss)[o..o + |ss[i]|] == ss[i]
  {
    assert ss == ss[..i] + ([ss[i]] + ss[i + 1..]);
    ConcatAppend(ss[..i], [ss[i]] + ss[i + 1..]);
    ConcatAppend([ss[i]], ss[i + 1..]);
    assert Concat([ss[i]]) == ss[i] by {
      assert [ss[i]][1..] == [];
    }
  }

  /** A slice of the contents of `[x] + c + [y]` is a slice of `c`. */
  lemma WrappedSlice<T>(x: T, c: seq<T>, y: T, a: nat, b: nat)
    requires a <= b <= |c|
    ensures ([x] + c + [y])[1 + a..1 + b] == c[a..b]
  {
    var t := [x] + c + [y];
    assert t[1..1 + |c|] == c;
    assert t[1 + a..1 + b] == t[1..1 + |c|][a..b];
  }

  lemma {:induction false} BalancedConcat(ss: seq<seq<XmlEvent>>)
    requires forall i :: 0 <= i < |ss| ==> Balanced(ss[i])
    ensures Balanced(Concat(ss))
    decreases |ss|
  {
    if |ss| == 0 {
      assert Concat(ss)[..0] == [];
    } else {
      BalancedConcat(ss[1..]);
      BalancedAppend(ss[0], Concat(ss[1..]));
    }
  }
}
