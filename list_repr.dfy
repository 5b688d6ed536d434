/**
 * The text an f-string gives a Python list of file names (`['a.csv', 'b.png']`),
 * and a reader that recovers the list from that text. The rendering is Python's
 * `repr` for names free of quotes and backslashes.
 */
module ListRepr {
  import opened Wrappers
  import opened Text

  function Quote(f: string): string
  {
    "'" + f + "'"
  }

  /** The elements quoted and separated by `, `. */
  function Join(fs: seq<string>): string
  {
    if |fs| == 0 then ""
    else if |fs| == 1 then Quote(fs[0])
    else Quote(fs[0]) + ", " + Join(fs[1..])
  }

  /**
   * `str(files)` for a list of strings. For quote-free names a reader recovers
   * the list from the text and leaves whatever follows the list untouched.
   */
  function Render(fs: seq<string>): (r: string)
    ensures Unquoted(fs) ==> forall t :: ReadList(r + t) == Some((fs, t))
  {
    ReadBracketed(fs);
    "[" + Join(fs) + "]"
  }

  /** No name holds a quote, so Python renders every one of them in single quotes. */
  ghost predicate Unquoted(fs: seq<string>)
  {
    forall i, c :: 0 <= i < |fs| && 0 <= c < |fs[i]| ==> fs[i][c] != '\''
  }

  /** The first index at or after `k` that holds `ch`. */
  function IndexOf(s: string, ch: char, k: nat): (r: Option<nat>)
    ensures r.Some? ==> k <= r.value < |s| && s[r.value] == ch
    ensures r.Some? ==> forall j :: k <= j < r.value ==> s[j] != ch
    ensures r.None? ==> forall j :: k <= j < |s| ==> s[j] != ch
    decreases |s| - k
  {
    if k >= |s| then None
    else if s[k] == ch then Some(k)
    else IndexOf(s, ch, k + 1)
  }

  /** Reads one quoted name at the start of `s` and returns it with the text after it. */
  function ReadName(s: string): (r: Option<(string, string)>)
    ensures r.Some? ==> |r.value.1| < |s|
  {
    if |s| == 0 || s[0] != '\'' then None
    else
      match IndexOf(s, '\'', 1)
      case None => None
      case Some(j) => Some((s[1..j], s[j + 1..]))
  }

  /** Reads `'a', 'b']` and returns the names with the text after the closing bracket. */
  function ReadItems(s: string): Option<(seq<string>, string)>
    decreases |s|
  {
    match ReadName(s)
    case None => None
    case Some((f, rest)) =>
      if |rest| > 0 && rest[0] == ']' then Some(([f], rest[1..]))
      else if |rest| > 1 && rest[0] == ',' && rest[1] == ' ' then
        match ReadItems(rest[2..])
        case None => None
        case Some(r) => Some(([f] + r.0, r.1))
      else None
  }

  /** Reads a rendered list at the start of `s` and returns it with the rest of `s`. */
  function ReadList(s: string): Option<(seq<string>, string)>
  {
    if StartsWith(s, "[]") then Some(([], s[2..]))
    else if StartsWith(s, "[") then ReadItems(s[1..])
    else None
  }

  /** A quote-free name in quotes reads back as itself. */
  lemma ReadQuotedName(f: string, tail: string)
    requires forall c :: 0 <= c < |f| ==> f[c] != '\''
    ensures ReadName(Quote(f) + tail) == Some((f, tail))
  {
    var s := Quote(f) + tail;
    forall c | 1 <= c < |f| + 1 ensures s[c] != '\'' {
      assert s[c] == f[c - 1];
    }
    assert s[|f| + 1] == '\'';
    assert IndexOf(s, '\'', 1) == Some(|f| + 1);
    assert s[1..|f| + 1] == f && s[|f| + 2..] == tail;
  }

  /** Reading the last quote-free name of a list. */
  lemma ReadLastItem(f: string, rest: string)
    requires forall c :: 0 <= c < |f| ==> f[c] != '\''
    requires |rest| > 0 && rest[0] == ']'
    ensures ReadItems(Quote(f) + rest) == Some(([f], rest[1..]))
  {
    ReadQuotedName(f, rest);
  }

  /** Reading a quote-free name followed by `, ` and further items. */
  lemma ReadNextItem(f: string, tail: string, names: seq<string>, after: string)
    requires forall c :: 0 <= c < |f| ==> f[c] != '\''
    requires |tail| >= 2 && tail[0] == ',' && tail[1] == ' '
    requires ReadItems(tail[2..]) == Some((names, after))
    ensures ReadItems(Quote(f) + tail) == Some(([f] + names, after))
  {
    ReadQuotedName(f, tail);
  }

  lemma UnquotedTail(fs: seq<string>)
    requires |fs| > 0 && Unquoted(fs)
    ensures Unquoted(fs[1..])
  {
    forall i, c | 0 <= i < |fs[1..]| && 0 <= c < |fs[1..][i]| ensures fs[1..][i][c] != '\'' {
      assert fs[1..][i] == fs[i + 1];
    }
  }

  /** Concatenation regroups; stated apart so that the step below stays cheap. */
  lemma Associative(a: string, b: string, c: string)
    ensures (a + b) + c == a + (b + c)
  {
  }

  lemma JoinCons(fs: seq<string>, rest: string)
    requires |fs| > 1
    ensures Join(fs) + rest == Quote(fs[0]) + (", " + (Join(fs[1..]) + rest))
    ensures (", " + (Join(fs[1..]) + rest))[2..] == Join(fs[1..]) + rest
  {
    var q, j := Quote(fs[0]), Join(fs[1..]);
    assert Join(fs) == q + ", " + j;
    Associative(q + ", ", j, rest);
    Associative(q, ", ", j + rest);
  }

  /** One induction step: the first name, then the items that follow it. */
  lemma ReadItemsJoinStep(fs: seq<string>, rest: string)
    requires |fs| > 1 && |rest| > 0
    requires forall c :: 0 <= c < |fs[0]| ==> fs[0][c] != '\''
    requires ReadItems(Join(fs[1..]) + rest) == Some((fs[1..], rest[1..]))
    ensures ReadItems(Join(fs) + rest) == Some((fs, rest[1..]))
  {
    JoinCons(fs, rest);
    ReadNextItem(fs[0], ", " + (Join(fs[1..]) + rest), fs[1..], rest[1..]);
    HeadTail(fs);
  }

  lemma HeadTail(fs: seq<string>)
    requires |fs| > 0
    ensures [fs[0]] + fs[1..] == fs
  {
  }

  /** Reading back the items of a rendered list of quote-free names, followed by `rest`. */
  lemma {:induction false} ReadItemsJoin(fs: seq<string>, rest: string)
    requires |fs| > 0 && Unquoted(fs) && |rest| > 0 && rest[0] == ']'
    ensures ReadItems(Join(fs) + rest) == Some((fs, rest[1..]))
    decreases |fs|
  {
    if |fs| == 1 {
      var f := fs[0];
      assert forall c :: 0 <= c < |f| ==> f[c] != '\'';
      assert Join(fs) == Quote(f) && [f] == fs;
      ReadLastItem(f, rest);
    } else {
      UnquotedTail(fs);
      ReadItemsJoin(fs[1..], rest);
      assert forall c :: 0 <= c < |fs[0]| ==> fs[0][c] != '\'';
      ReadItemsJoinStep(fs, rest);
    }
  }

  /** Reading back `[`, the items of quote-free names and `]`, whatever text follows. */
  lemma ReadBracketed(fs: seq<string>)
    ensures Unquoted(fs) ==> forall t :: ReadList("[" + Join(fs) + "]" + t) == Some((fs, t))
  {
    if Unquoted(fs) {
      forall t ensures ReadList("[" + Join(fs) + "]" + t) == Some((fs, t)) {
        var s := "[" + Join(fs) + "]" + t;
        if |fs| == 0 {
          assert s == "[]" + t;
        } else {
          assert s == "[" + (Join(fs) + ("]" + t));
          assert s[1] == Join(fs)[0] == '\'';
          assert s[..2] != "[]";
          ReadItemsJoin(fs, "]" + t);
        }
      }
    }
  }

}
