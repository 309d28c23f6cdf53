/**
 The names of the trash: each reads back as the path it was made of, and which of them
 are refused when asked for.
 */
module TrashNames {
  import opened Basics
  import opened Index
  import opened Server

  // ── Reading a name ─────────────────────────────────────────────────────────

  function HexValue(ch: char): Option<nat> {
    if '0' <= ch <= '9' then Some(ch as int - '0' as int)
    else if 'A' <= ch <= 'F' then Some(ch as int - 'A' as int + 10)
    else if 'a' <= ch <= 'f' then Some(ch as int - 'a' as int + 10)
    else None
  }

  function Behind(prefix: string, text: Option<string>): Option<string> {
    match text case None => None case Some(rest) => Some(prefix + rest)
  }

  function Unescape(text: string): Option<Path> {
    if text == "" then Some("")
    else if text[0] != '%' then Behind([text[0]], Unescape(text[1..]))
    else if |text| < 3 || HexValue(text[1]) == None || HexValue(text[2]) == None then None
    else
      var byte := 16 * HexValue(text[1]).value + HexValue(text[2]).value;
      Behind([byte as char], Unescape(text[3..]))
  }

  // The path behind the first underscore; the time before it is not looked at here.
  function Decode(id: string): Option<Path> {
    if id == "" then None
    else if id[0] == '_' then Unescape(id[1..])
    else Decode(id[1..])
  }

  lemma EscapedReadsBack(ch: char, text: string)
    ensures Unescape(EscapeChar(ch) + text) == Behind([ch], Unescape(text))
  {
    var escaped := EscapeChar(ch);
    assert (escaped + text)[|escaped|..] == text;
  }

  lemma BehindBoth(a: string, b: string, text: Option<string>)
    ensures Behind(a, Behind(b, text)) == Behind(a + b, text)
  {
    if text.Some? {
      Regroup(a, b, text.value);
    }
  }

  lemma {:induction false} PathReadsBack(p: Path, text: string)
    ensures Unescape(Escape(p) + text) == Behind(p, Unescape(text))
  {
    if p == "" {
      assert Escape(p) + text == text;
      if Unescape(text).Some? {
        assert "" + Unescape(text).value == Unescape(text).value;
      }
    } else {
      PathReadsBack(p[1..], text);
      EscapedReadsBack(p[0], Escape(p[1..]) + text);
      Regroup(EscapeChar(p[0]), Escape(p[1..]), text);
      BehindBoth([p[0]], p[1..], Unescape(text));
      assert p == [p[0]] + p[1..];
    }
  }

  lemma {:induction false} PlainReadsBack(text: string)
    requires '%' !in text
    ensures Unescape(text) == Some(text)
  {
    if text != "" {
      PlainReadsBack(text[1..]);
      assert [text[0]] + text[1..] == text;
    }
  }

  lemma {:induction false} BehindTheStamp(stamp: string, text: string)
    requires '_' !in stamp
    ensures Decode(stamp + "_" + text) == Unescape(text)
  {
    var id := stamp + "_" + text;
    if stamp == "" {
      assert id[1..] == text;
    } else {
      BehindTheStamp(stamp[1..], text);
      assert id[1..] == stamp[1..] + "_" + text;
    }
  }

  // A name reads back as its path, and what was appended to it to make it new.
  lemma NameReadsBack(stamp: string, p: Path, suffix: string)
    requires '_' !in stamp && '%' !in suffix
    ensures Decode(EncodeId(stamp, p) + suffix) == Some(p + suffix)
  {
    PlainReadsBack(suffix);
    PathReadsBack(p, suffix);
    BehindTheStamp(stamp, Escape(p) + suffix);
    Regroup(stamp + "_", Escape(p), suffix);
  }

  lemma {:induction false} DigitsArePlain(n: nat)
    ensures '%' !in Digits(n)
  {
    if n >= 10 {
      DigitsArePlain(n / 10);
    }
  }

  lemma {:induction false} SuffixIsPlain(taken: set<string>, id: string, i: nat)
    ensures '%' !in FreshSuffix(taken, id, i)
    decreases |taken|
  {
    if id in taken {
      DigitsArePlain(i);
      SuffixIsPlain(taken - {id}, id + ("." + Digits(i)), i + 1);
    }
  }

  // ── The trash, always ──────────────────────────────────────────────────────

  // Every item's name reads back as the path the item goes back to.
  ghost predicate ReadsBack(s: State, id: string) {
    id in s.trash ==> Decode(id) == Some(s.trash[id].path)
  }

  ghost predicate AllReadBack(s: State) {
    forall id {:trigger ReadsBack(s, id)} :: ReadsBack(s, id)
  }

  predicate StampOf(r: Request, stamp: string) {
    (r.Put? && r.stamp == stamp) || (r.Delete? && r.stamp == stamp) || (r.Purge? && r.stamp == stamp)
  }

  lemma MovedReadsBack(s: State, p: Path, stamp: string)
    requires AllReadBack(s) && '_' !in stamp
    ensures AllReadBack(MoveToTrash(s, p, stamp))
  {
    var suffix := FreshSuffix(s.trash.Keys, EncodeId(stamp, p), 1);
    SuffixIsPlain(s.trash.Keys, EncodeId(stamp, p), 1);
    NameReadsBack(stamp, p, suffix);
    forall id ensures ReadsBack(MoveToTrash(s, p, stamp), id) { assert ReadsBack(s, id); }
  }

  lemma SameTrashReadsBack(s: State, s': State)
    requires AllReadBack(s) && s'.trash == s.trash
    ensures AllReadBack(s')
  {
    forall id ensures ReadsBack(s', id) { assert ReadsBack(s, id); }
  }

  lemma {:induction false} PurgeReadsBack(s: State, paths: seq<Path>, stamp: string)
    requires AllReadBack(s) && '_' !in stamp
    ensures AllReadBack(PurgeIgnored(s, paths, stamp))
    decreases |paths|
  {
    if paths != [] {
      var p := paths[0];
      if Live(s.table, p) {
        MovedReadsBack(s, p, stamp);
        SameTrashReadsBack(if LiveDirectory(s.table, p) then s else MoveToTrash(s, p, stamp), PurgeOne(s, p, stamp));
      }
      PurgeReadsBack(PurgeOne(s, p, stamp), paths[1..], stamp);
    }
  }

  // No request leaves an item under a name that reads back as another path.
  lemma RequestReadsBack(s: State, r: Request)
    requires AllReadBack(s) && forall stamp :: StampOf(r, stamp) ==> '_' !in stamp
    ensures AllReadBack(Handle(s, r).0)
  {
    var s' := Handle(s, r).0;
    match r
    case Put(p, _, _, _, _, _, stamp) =>
      assert StampOf(r, stamp);
      MovedReadsBack(s, p, stamp);
      SameTrashReadsBack(if s'.trash == s.trash then s else MoveToTrash(s, p, stamp), s');
    case Delete(p, _, stamp) =>
      assert StampOf(r, stamp);
      MovedReadsBack(s, p, stamp);
      SameTrashReadsBack(if s'.trash == s.trash then s else MoveToTrash(s, p, stamp), s');
    case Restore(id) =>
      forall other ensures ReadsBack(s', other) { assert ReadsBack(s, other); }
    case Purge(paths, stamp) =>
      assert StampOf(r, stamp);
      PurgeReadsBack(s, paths, stamp);
    case MakeDir(_, _) =>
      SameTrashReadsBack(s, s');
  }

  // ── Names that are refused ─────────────────────────────────────────────────

  lemma {:induction false} DotsInTwo(a: string, b: string)
    ensures TwoDots(a + b) <==> TwoDots(a) || TwoDots(b) || (a != "" && b != "" && a[|a| - 1] == '.' && b[0] == '.')
  {
    if a == "" {
      assert a + b == b;
    } else {
      DotsInTwo(a[1..], b);
      assert (a + b)[1..] == a[1..] + b;
    }
  }

  lemma EscapedHasNoDots(ch: char)
    ensures var escaped := EscapeChar(ch);
      && '/' !in escaped && '\\' !in escaped && !TwoDots(escaped)
      && (escaped[0] == '.' <==> ch == '.') && (escaped[|escaped| - 1] == '.' <==> ch == '.')
  {
    if !Unreserved(ch) && ch as int < 256 {
      assert HexDigit(ch as int / 16) != '.' && HexDigit(ch as int % 16) != '.';
      assert !TwoDots(EscapeChar(ch)[2..]) && !TwoDots(EscapeChar(ch)[1..]);
    }
  }

  lemma {:induction false} EscapeKeepsDots(p: Path)
    ensures '/' !in Escape(p) && '\\' !in Escape(p) && (TwoDots(Escape(p)) <==> TwoDots(p))
    ensures p != "" ==> Escape(p) != "" && (Escape(p)[0] == '.' <==> p[0] == '.')
  {
    if p != "" {
      EscapedHasNoDots(p[0]);
      EscapeKeepsDots(p[1..]);
      DotsInTwo(EscapeChar(p[0]), Escape(p[1..]));
    }
  }

  // A file's name in the trash is refused if and only if its path, or the time, has two
  // dots in a row.
  lemma RefusedForTwoDots(stamp: string, p: Path)
    requires '/' !in stamp && '\\' !in stamp
    ensures Rejected(EncodeId(stamp, p)) <==> TwoDots(stamp) || TwoDots(p)
  {
    EscapeKeepsDots(p);
    DotsInTwo(stamp + "_", Escape(p));
    DotsInTwo(stamp, "_");
  }

  lemma ANameWithTwoDots(stamp: string, p: Path)
    requires '/' !in stamp && '\\' !in stamp && p == "notes..txt"
    ensures Rejected(EncodeId(stamp, p))
  {
    assert p == "notes." + ".txt";
    DotsInTwo("notes.", ".txt");
    RefusedForTwoDots(stamp, p);
  }
}
