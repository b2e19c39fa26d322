/**
 The tool-identity record of CycloneDX Rust Cargo and its XML emitters.
 */
module Tools {
  import opened Wrappers
  import opened XmlTrace

  /** The tool that produced a document: every field is optional. */
  datatype Tool = Tool(vendor: Option<string>, name: Option<string>, version: Option<string>)

  /** `CARGO_CYCLONEDX`, given the package version the build environment
      supplied (`None` when it supplied none). */
  function CargoCycloneDx(buildVersion: Option<string>): (t: Tool)
    ensures t.vendor == Some("cyclonedx.org")
    ensures t.name == Some("cyclonedx-rust-cargo")
    ensures t.version == buildVersion
  {
    Tool(Some("cyclonedx.org"), Some("cyclonedx-rust-cargo"), buildVersion)
  }

  /** The events of one optional field: a leaf element when present, and
      nothing at all (not an empty element) when absent. */
  function ChildTrace(tag: string, field: Option<string>): seq<XmlEvent>
  {
    match field
    case None => []
    case Some(value) => Leaf(tag, value)
  }

  /** The events one tool writes: its present fields, in the fixed order
      vendor, name, version, inside a `tool` element. */
  function ToolTrace(t: Tool): seq<XmlEvent>
  {
    [Begin("tool")]
      + ChildTrace("vendor", t.vendor)
      + ChildTrace("name", t.name)
      + ChildTrace("version", t.version)
      + [End]
  }

  function ToolTraces(ts: seq<Tool>): (r: seq<seq<XmlEvent>>)
    ensures |r| == |ts| && forall i :: 0 <= i < |ts| ==> r[i] == ToolTrace(ts[i])
  {
    seq(|ts|, i requires 0 <= i < |ts| => ToolTrace(ts[i]))
  }

  /** The events a list of tools writes: always a `tools` element, with the
      tools' events in order inside it. */
  function ToolListTrace(ts: seq<Tool>): seq<XmlEvent>
  {
    [Begin("tools")] + Concat(ToolTraces(ts)) + [End]
  }

  /** One `if let Some(..)` block of `ToXml for Tool`. */
  function ChildToXml(tag: string, field: Option<string>, w: Writer): (r: Step)
    ensures r == PutAll(w, ChildTrace(tag, field))
  {
    match field
    case None => Wrote(w)
    case Some(value) => LeafToXml(tag, value, w)
  }

  /** The three `if let Some(..)` blocks of `ToXml for Tool`, in order. */
  function ChildrenToXml(t: Tool, w: Writer): (r: Step)
    ensures r == PutAll(w, ChildTrace("vendor", t.vendor) + ChildTrace("name", t.name) + ChildTrace("version", t.version))
  {
    var v := ChildTrace("vendor", t.vendor);
    var n := ChildTrace("name", t.name);
    var x := ChildTrace("version", t.version);
    assert v + n + x == v + (n + x);
    PutAllAppend(w, v, n + x);
    var w1 :- ChildToXml("vendor", t.vendor, w);
    PutAllAppend(w1, n, x);
    var w2 :- ChildToXml("name", t.name, w1);
    ChildToXml("version", t.version, w2)
  }

  /** `ToXml for Tool`, call by call; each `?` aborts on a failed write. */
  function ToolToXml(t: Tool, w: Writer): (r: Step)
    ensures r == PutAll(w, ToolTrace(t))
  {
    var children := ChildTrace("vendor", t.vendor) + ChildTrace("name", t.name) + ChildTrace("version", t.version);
    assert ToolTrace(t) == [Begin("tool")] + (children + [End]);
    PutAllAppend(w, [Begin("tool")], children + [End]);
    var w1 :- Put(w, Begin("tool"));
    PutAllAppend(w1, children, [End]);
    var w2 :- ChildrenToXml(t, w1);
    Put(w2, End)
  }

  /** The `for tool in self` loop of `ToXml for Vec<Tool>`. */
  function ToolItemsToXml(ts: seq<Tool>, w: Writer): (r: Step)
    ensures r == PutAll(w, Concat(ToolTraces(ts)))
    decreases |ts|
  {
    if |ts| == 0 then Wrote(w)
    else
      assert ToolTraces(ts)[1..] == ToolTraces(ts[1..]);
      PutAllAppend(w, ToolTrace(ts[0]), Concat(ToolTraces(ts[1..])));
      var w1 :- ToolToXml(ts[0], w);
      ToolItemsToXml(ts[1..], w1)
  }

  /** `ToXml for Vec<Tool>`: the `tools` element is written even for an
      empty list. */
  function ToolsToXml(ts: seq<Tool>, w: Writer): (r: Step)
    ensures r == PutAll(w, ToolListTrace(ts))
  {
    var body := Concat(ToolTraces(ts));
    PutAllAppend(w, [Begin("tools")], body + [End]);
    assert [Begin("tools")] + body + [End] == [Begin("tools")] + (body + [End]);
    var w1 :- Put(w, Begin("tools"));
    PutAllAppend(w1, body, [End]);
    var w2 :- ToolItemsToXml(ts, w1);
    Put(w2, End)
  }

  // ---------------------------------------------------------------------
  // Properties of the traces

  lemma ToolTraceBalanced(t: Tool)
    ensures Balanced(ToolTrace(t))
    ensures ToolTrace(t)[0] == Begin("tool") && ToolTrace(t)[|ToolTrace(t)| - 1] == End
    ensures Balanced(ToolTrace(t)[1..|ToolTrace(t)| - 1])
  {
    var v := ChildTrace("vendor", t.vendor);
    var n := ChildTrace("name", t.name);
    var x := ChildTrace("version", t.version);
    var none: seq<XmlEvent> := [];
    assert Balanced(none) by {
      assert none[..0] == none;
    }
    if t.vendor.Some? { LeafBalanced("vendor", t.vendor.value); }
    if t.name.Some? { LeafBalanced("name", t.name.value); }
    if t.version.Some? { LeafBalanced("version", t.version.value); }
    BalancedAppend(v, n);
    BalancedAppend(v + n, x);
    BalancedWrap("tool", v + n + x);
    assert ToolTrace(t) == [Begin("tool")] + (v + n + x) + [End];
    assert ToolTrace(t)[1..|ToolTrace(t)| - 1] == v + n + x;
  }

  /** In trace `tr`, the element `tag` of an optional field occurs exactly
      when the field is present, and each occurrence is the leaf
      `Begin(tag), Text(value), End` holding that field's own value. */
  ghost predicate FieldWritten(tr: seq<XmlEvent>, tag: string, field: Option<string>)
  {
    && (Begin(tag) in tr <==> field.Some?)
    && forall i :: 0 <= i < |tr| && tr[i] == Begin(tag) ==>
         && field.Some?
         && i + 2 < |tr|
         && tr[i + 1] == Text(field.value)
         && tr[i + 2] == End
  }

  /** Each field's element is written exactly when the field is present,
      and then holds that field's value. An absent field writes no element
      at all. */
  lemma ChildPresence(t: Tool)
    ensures FieldWritten(ToolTrace(t), "vendor", t.vendor)
    ensures FieldWritten(ToolTrace(t), "name", t.name)
    ensures FieldWritten(ToolTrace(t), "version", t.version)
  {
    var v := ChildTrace("vendor", t.vendor);
    var n := ChildTrace("name", t.name);
    var x := ChildTrace("version", t.version);
    var tr := ToolTrace(t);
    assert tr == [Begin("tool")] + v + (n + x + [End]);
    ChildInside(tr, [Begin("tool")], "vendor", t.vendor, n + x + [End]);
    assert tr == [Begin("tool")] + v + n + (x + [End]);
    ChildInside(tr, [Begin("tool")] + v, "name", t.name, x + [End]);
    assert tr == [Begin("tool")] + v + n + x + [End];
    ChildInside(tr, [Begin("tool")] + v + n, "version", t.version, [End]);
  }

  /** A field's events placed in a trace whose other parts never begin that
      field's element. */
  lemma ChildInside(tr: seq<XmlEvent>, pre: seq<XmlEvent>, tag: string, field: Option<string>, post: seq<XmlEvent>)
    requires tr == pre + ChildTrace(tag, field) + post
    requires Begin(tag) !in pre && Begin(tag) !in post
    ensures FieldWritten(tr, tag, field)
  {
    var c := ChildTrace(tag, field);
    forall i | 0 <= i < |tr| && tr[i] == Begin(tag)
      ensures i == |pre| && field.Some?
    {
      if |pre| <= i < |pre| + |c| {
        assert tr[i] == c[i - |pre|];
      }
    }
    if field.Some? {
      assert tr[|pre|] == Begin(tag);
    }
  }

  /** Present fields appear in the order vendor, name, version. */
  lemma ChildOrder(t: Tool, i: nat, j: nat)
    requires i < |ToolTrace(t)| && j < |ToolTrace(t)|
    ensures ToolTrace(t)[i] == Begin("vendor") && ToolTrace(t)[j] == Begin("name") ==> i < j
    ensures ToolTrace(t)[i] == Begin("name") && ToolTrace(t)[j] == Begin("version") ==> i < j
    ensures ToolTrace(t)[i] == Begin("vendor") && ToolTrace(t)[j] == Begin("version") ==> i < j
  {
  }

  /** A list of tools is always wrapped, so an empty one writes exactly an
      empty `tools` element. */
  lemma EmptyToolsStillWrapped()
    ensures ToolListTrace([]) == [Begin("tools"), End]
  {
  }

  /** The i-th tool's events sit contiguously inside the `tools` element,
      right after those of the tools before it. */
  lemma ToolListLayout(ts: seq<Tool>, i: nat)
    requires i < |ts|
    ensures var t := ToolListTrace(ts);
            var o := 1 + |Concat(ToolTraces(ts[..i]))|;
            && t[0] == Begin("tools") && t[|t| - 1] == End
            && Balanced(t[1..|t| - 1])
            && o + |ToolTrace(ts[i])| < |t|
            && t[o..o + |ToolTrace(ts[i])|] == ToolTrace(ts[i])
  {
    var trs := ToolTraces(ts);
    ConcatSlice(trs, i);
    assert trs[..i] == ToolTraces(ts[..i]);
    var p := |Concat(trs[..i])|;
    WrappedSlice(Begin("tools"), Concat(trs), End, p, p + |trs[i]|);
    forall j | 0 <= j < |trs|
      ensures Balanced(trs[j])
    {
      ToolTraceBalanced(ts[j]);
    }
    BalancedConcat(trs);
    assert ToolListTrace(ts)[1..|ToolListTrace(ts)| - 1] == Concat(trs);
  }

  lemma ToolListTraceBalanced(ts: seq<Tool>)
    ensures Balanced(ToolListTrace(ts))
  {
    forall i | 0 <= i < |ts|
      ensures Balanced(ToolTraces(ts)[i])
    {
      ToolTraceBalanced(ts[i]);
    }
    BalancedConcat(ToolTraces(ts));
    BalancedWrap("tools", Concat(ToolTraces(ts)));
  }

  /** Writing a list of tools into a writer that fails after `k` events: it
      succeeds exactly when the whole trace fits, and then writes a balanced
      trace; otherwise it writes a strict prefix of that trace and fails. */
  lemma ToolsEmission(ts: seq<Tool>, k: nat)
    ensures var r := ToolsToXml(ts, Writer([], k));
            var t := ToolListTrace(ts);
            && (r.Wrote? <==> |t| <= k)
            && (r.Wrote? ==> r.writer.out == t && Balanced(r.writer.out))
            && (r.Failed? ==> |r.writer.out| < |t| && r.writer.out == t[..|r.writer.out|])
  {
    PutAllFresh(ToolListTrace(ts), k);
    ToolListTraceBalanced(ts);
  }

  /** Without a build version the tool record writes no `version` element. */
  lemma CargoCycloneDxTrace(buildVersion: Option<string>)
    ensures buildVersion.None? ==>
              ToolTrace(CargoCycloneDx(buildVersion)) ==
                [Begin("tool"),
                 Begin("vendor"), Text("cyclonedx.org"), End,
                 Begin("name"), Text("cyclonedx-rust-cargo"), End,
                 End]
    ensures Begin("version") in ToolTrace(CargoCycloneDx(buildVersion)) <==> buildVersion.Some?
  {
    ChildPresence(CargoCycloneDx(buildVersion));
    assert FieldWritten(ToolTrace(CargoCycloneDx(buildVersion)), "version", buildVersion);
  }
}
