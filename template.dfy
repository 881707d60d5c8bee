/**
 * The scripts build their Telegram messages with f-strings: fixed text with
 * holes for the title, the summary and so on. `Render` fills the holes;
 * `Parse` reads them back, which shows that a message determines the values
 * it was built from.
 */
module Template {
  import opened Wrappers
  import opened Strings

  /** `seps[0] + fields[0] + seps[1] + ... + fields[n-1] + seps[n]`. */
  function Render(seps: seq<string>, fields: seq<string>): string
    requires |seps| == |fields| + 1
  {
    if fields == [] then seps[0] else seps[0] + fields[0] + Render(seps[1..], fields[1..])
  }

  /** Reads the holes back: every hole but the last ends at the first
      occurrence of the fixed text that follows it. */
  function Parse(seps: seq<string>, msg: string): Option<seq<string>>
    requires |seps| >= 1
    decreases |seps|
  {
    if !StartsWith(msg, seps[0]) then None
    else
      var rest := msg[|seps[0]|..];
      if |seps| == 1 then (if rest == [] then Some([]) else None)
      else if |seps| == 2 then
        (if EndsWith(rest, seps[1]) then Some([rest[..|rest| - |seps[1]|]]) else None)
      else
        match IndexOf(rest, seps[1])
        case None => None
        case Some(i) =>
          match Parse(seps[1..], rest[i..])
          case None => None
          case Some(fs) => Some([rest[..i]] + fs)
  }

  /** Every hole but the last is free of the first character of the text
      that follows it. */
  predicate Separable(seps: seq<string>, fields: seq<string>) {
    && |seps| == |fields| + 1
    && forall i :: 1 <= i < |fields| ==> seps[i] != [] && seps[i][0] !in fields[i - 1]
  }

  lemma SeparableTail(seps: seq<string>, fields: seq<string>)
    requires Separable(seps, fields) && fields != []
    ensures Separable(seps[1..], fields[1..])
  {
    forall i | 1 <= i < |fields| - 1
      ensures seps[1..][i] != [] && seps[1..][i][0] !in fields[1..][i - 1]
    {
      assert seps[1..][i] == seps[i + 1] && fields[1..][i - 1] == fields[i];
    }
  }

  /** Reading one hole: the first field ends where the next fixed text starts. */
  lemma ParseStep(seps: seq<string>, f: string, tail: string)
    requires |seps| > 2 && seps[1] != [] && seps[1][0] !in f
    requires StartsWith(tail, seps[1])
    ensures Parse(seps, seps[0] + f + tail) ==
      match Parse(seps[1..], tail)
      case None => None
      case Some(fs) => Some([f] + fs)
  {
    var msg := seps[0] + f + tail;
    assert StartsWith(msg, seps[0]) by { assert msg[..|seps[0]|] == seps[0]; }
    var rest := msg[|seps[0]|..];
    assert rest == f + seps[1] + tail[|seps[1]|..] by {
      assert tail == seps[1] + tail[|seps[1]|..];
    }
    IndexOfAfterField(f, seps[1], tail[|seps[1]|..]);
    assert rest[..|f|] == f && rest[|f|..] == tail;
  }

  lemma ParseLast(seps: seq<string>, f: string)
    requires |seps| == 2
    ensures Parse(seps, seps[0] + f + seps[1]) == Some([f])
  {
    var msg := seps[0] + f + seps[1];
    assert StartsWith(msg, seps[0]) by { assert msg[..|seps[0]|] == seps[0]; }
    var rest := msg[|seps[0]|..];
    assert rest == f + seps[1];
    assert EndsWith(rest, seps[1]);
    assert rest[..|rest| - |seps[1]|] == f;
  }

  lemma {:induction false} ParseRender(seps: seq<string>, fields: seq<string>)
    requires Separable(seps, fields)
    ensures Parse(seps, Render(seps, fields)) == Some(fields)
  {
    if fields == [] {
      var msg := Render(seps, fields);
      assert StartsWith(msg, seps[0]) && msg[|seps[0]|..] == [];
    } else if |fields| == 1 {
      assert Render(seps, fields) == seps[0] + fields[0] + seps[1];
      ParseLast(seps, fields[0]);
      assert [fields[0]] == fields;
    } else {
      var tail := Render(seps[1..], fields[1..]);
      assert StartsWith(tail, seps[1]) by {
        assert tail == seps[1] + (fields[1] + Render(seps[2..], fields[2..])) by {
          assert seps[1..][1..] == seps[2..] && fields[1..][1..] == fields[2..];
        }
      }
      assert seps[1] != [] && seps[1][0] !in fields[0];
      ParseStep(seps, fields[0], tail);
      SeparableTail(seps, fields);
      ParseRender(seps[1..], fields[1..]);
      assert [fields[0]] + fields[1..] == fields;
    }
  }

  /** A rendered message starts with the first fixed text and ends with the
      last one. */
  lemma {:induction false} RenderFrame(seps: seq<string>, fields: seq<string>)
    requires |seps| == |fields| + 1
    ensures StartsWith(Render(seps, fields), seps[0])
    ensures EndsWith(Render(seps, fields), seps[|seps| - 1])
    decreases |fields|
  {
    if fields != [] {
      RenderFrame(seps[1..], fields[1..]);
      var tail := Render(seps[1..], fields[1..]);
      var last := seps[|seps| - 1];
      var r := seps[0] + fields[0] + tail;
      assert r[..|seps[0]|] == seps[0];
      assert r[|r| - |last|..] == tail[|tail| - |last|..];
    }
  }
}
