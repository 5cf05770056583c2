/** The text of the record class EditorUtils.GenerateConfigClass writes for
    one workbook: one public field per header column except `id` (which the
    base class declares), in header order, each preceded by a doc-comment
    block when the column has a comment.  The file is a sequence of lines,
    one per AppendLine call: a comment holding a line break still counts
    as one line here. */
module ConfigClass {
  import opened ExcelSheets

  function DeclLine(p: Property): string {
    "    public " + p.typeName + " " + p.name + ";"
  }

  function SummaryLines(comment: string): seq<string> {
    ["    /// <summary>", "    /// " + comment, "    /// </summary>"]
  }

  /** The lines one header column contributes. */
  function MemberLines(p: Property): seq<string> {
    if p.name == "id" then []
    else if p.comment != "" then SummaryLines(p.comment) + [DeclLine(p)]
    else [DeclLine(p)]
  }

  /** The lines of the class body for `props`, in order. */
  function BodyLines(props: seq<Property>): seq<string>
    decreases |props|
  {
    if props == [] then [] else BodyLines(props[..|props| - 1]) + MemberLines(props[|props| - 1])
  }

  function ClassText(props: seq<Property>, configName: string): seq<string> {
    ["public class " + configName + " : BaseConfig", "{"] + BodyLines(props) + ["}"]
  }

  /** The StringBuilder part of GenerateConfigClass. */
  method BuildClassText(properties: seq<Property>, configName: string) returns (lines: seq<string>)
    ensures lines == ClassText(properties, configName)
  {
    ghost var head := ["public class " + configName + " : BaseConfig", "{"];
    lines := ["public class " + configName + " : BaseConfig", "{"];
    for i := 0 to |properties|
      invariant lines == head + BodyLines(properties[..i])
    {
      BodyLinesStep(properties, i);
      ghost var before := lines;
      var property := properties[i];
      if property.name == "id" {
        assert before + [] == before;
        continue;
      }
      if property.comment != "" {
        lines := lines + ["    /// <summary>"];
        lines := lines + ["    /// " + property.comment];
        lines := lines + ["    /// </summary>"];
        ThreeLines(before, SummaryLines(property.comment));
      } else {
        assert before + [] == before;
      }
      ghost var summary := if property.comment != "" then SummaryLines(property.comment) else [];
      lines := lines + ["    public " + property.typeName + " " + property.name + ";"];
      assert before + summary + [DeclLine(property)] == before + (summary + [DeclLine(property)]);
      assert summary + [DeclLine(property)] == MemberLines(property);
      AppendAssoc(head, BodyLines(properties[..i]), MemberLines(property));
    }
    assert properties[..|properties|] == properties;
    lines := lines + ["}"];
  }

  lemma AppendAssoc(a: seq<string>, b: seq<string>, c: seq<string>)
    ensures a + b + c == a + (b + c)
  {
  }

  lemma ThreeLines(a: seq<string>, s: seq<string>)
    requires |s| == 3
    ensures a + [s[0]] + [s[1]] + [s[2]] == a + s
  {
  }

  lemma BodyLinesStep(props: seq<Property>, i: nat)
    requires i < |props|
    ensures BodyLines(props[..i + 1]) == BodyLines(props[..i]) + MemberLines(props[i])
  {
    assert props[..i + 1][..i] == props[..i];
  }

  /** The header columns other than `id`, in order. */
  function NonId(props: seq<Property>): (r: seq<Property>)
    ensures |r| <= |props|
    ensures forall k :: 0 <= k < |r| ==> r[k].name != "id" && r[k] in props
    decreases |props|
  {
    if props == [] then []
    else
      var init := NonId(props[..|props| - 1]);
      var last := props[|props| - 1];
      if last.name == "id" then init else init + [last]
  }

  function Commented(props: seq<Property>): (r: seq<Property>)
    ensures |r| <= |props|
    decreases |props|
  {
    if props == [] then []
    else
      var init := Commented(props[..|props| - 1]);
      if props[|props| - 1].comment != "" then init + [props[|props| - 1]] else init
  }

  predicate IsDecl(line: string) {
    |line| >= 11 && line[..11] == "    public "
  }

  /** The field declarations among some lines, in order. */
  function Decls(lines: seq<string>): seq<string>
    decreases |lines|
  {
    if lines == [] then []
    else Decls(lines[..|lines| - 1]) + (if IsDecl(lines[|lines| - 1]) then [lines[|lines| - 1]] else [])
  }

  function DeclLines(props: seq<Property>): (r: seq<string>)
    ensures |r| == |props|
    ensures forall k :: 0 <= k < |r| ==> r[k] == DeclLine(props[k])
  {
    seq(|props|, k requires 0 <= k < |props| => DeclLine(props[k]))
  }

  lemma {:induction false} DeclsAppend(a: seq<string>, b: seq<string>)
    ensures Decls(a + b) == Decls(a) + Decls(b)
    decreases |b|
  {
    if b == [] {
      assert a + b == a;
    } else {
      var b' := b[..|b| - 1];
      assert (a + b)[..|a + b| - 1] == a + b';
      DeclsAppend(a, b');
    }
  }

  lemma MemberDecls(p: Property)
    ensures Decls(MemberLines(p)) == if p.name == "id" then [] else [DeclLine(p)]
  {
    var s := SummaryLines(p.comment);
    assert !IsDecl(s[0]) && !IsDecl(s[1]) && !IsDecl(s[2]) by {
      assert s[0][4] == '/' && s[1][4] == '/' && s[2][4] == '/';
    }
    assert Decls(s) == [] by {
      assert s[..2][..1] == [s[0]] && s[..2] == [s[0], s[1]] && s[..|s| - 1] == s[..2];
      assert Decls([s[0]]) == [] by { assert [s[0]][..0] == []; }
    }
    assert IsDecl(DeclLine(p));
    assert Decls([DeclLine(p)]) == [DeclLine(p)] by { assert [DeclLine(p)][..0] == []; }
    DeclsAppend(s, [DeclLine(p)]);
  }

  /** The declarations of the class body are those of the non-id columns,
      in header order. */
  lemma {:induction false} BodyDecls(props: seq<Property>)
    ensures Decls(BodyLines(props)) == DeclLines(NonId(props))
    decreases |props|
  {
    if props != [] {
      var init := props[..|props| - 1];
      var last := props[|props| - 1];
      BodyDecls(init);
      DeclsAppend(BodyLines(init), MemberLines(last));
      MemberDecls(last);
      if last.name != "id" {
        DeclLinesSnoc(NonId(init), last);
      }
    }
  }

  lemma DeclLinesSnoc(ps: seq<Property>, p: Property)
    ensures DeclLines(ps + [p]) == DeclLines(ps) + [DeclLine(p)]
  {
  }

  /** The class declares exactly the non-id header columns, in order, and
      nothing else: the class line and the braces are not declarations. */
  lemma ClassDeclarations(props: seq<Property>, configName: string)
    ensures Decls(ClassText(props, configName)) == DeclLines(NonId(props))
  {
    var head := ["public class " + configName + " : BaseConfig", "{"];
    assert Decls(head) == [] by {
      assert !IsDecl(head[0]) by {
        if |head[0]| >= 11 { assert head[0][..11][0] == 'p'; }
      }
      assert !IsDecl(head[1]);
      assert head[..1][..0] == [] && head[..|head| - 1] == head[..1];
      assert Decls(head[..1]) == Decls(head[..1][..0]) + [];
    }
    assert Decls(["}"]) == [] by { assert ["}"][..0] == []; }
    DeclsAppend(head, BodyLines(props));
    DeclsAppend(head + BodyLines(props), ["}"]);
    BodyDecls(props);
  }

  /** Three lines of frame, one per non-id column, and three more for each
      non-id column with a comment. */
  lemma {:induction false} ClassLineCount(props: seq<Property>, configName: string)
    ensures |ClassText(props, configName)| == 3 + |NonId(props)| + 3 * |Commented(NonId(props))|
  {
    BodyLineCount(props);
  }

  lemma {:induction false} BodyLineCount(props: seq<Property>)
    ensures |BodyLines(props)| == |NonId(props)| + 3 * |Commented(NonId(props))|
    decreases |props|
  {
    if props != [] {
      var init := props[..|props| - 1];
      var last := props[|props| - 1];
      BodyLineCount(init);
      if last.name != "id" {
        var n := NonId(init) + [last];
        assert n[..|n| - 1] == NonId(init);
      }
    }
  }
}
