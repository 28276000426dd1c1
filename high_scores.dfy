/** The desktop boxing game's leaderboard: normalising the stored high-score
    file after it has been parsed, the stable descending sort by score, the
    "does this score qualify" test and the top-5 insertion. */
module HighScores {
  import opened Common

  /** A JSON value as the parser returns it (numbers are finite). */
  datatype Json =
    | JNull
    | JBool(b: bool)
    | JInt(i: int)
    | JFloat(f: real)
    | JStr(s: string)
    | JList(items: seq<Json>)
    | JObject(fields: map<string, Json>)

  /** A leaderboard entry: the stored name, as found, and the score after `int(...)`. */
  datatype Entry = Entry(name: Json, score: int)

  /** Duration key ("30" or "60") to that duration's leaderboard. */
  type Board = map<string, seq<Entry>>

  /** What reading the high-score file produced: no file, an operating
      system error while reading it or text that is not valid JSON (the two
      errors the loader catches), or a parsed JSON document. */
  datatype StoredFile = Missing | Unreadable | Parsed(content: Json)

  const MaxHighScores: nat := 5
  const DurationKeys: set<string> := {"30", "60"}

  // ---------------------------------------------------------------------
  // Python's int(...) applied to a parsed JSON value

  /** The characters `int(...)` strips around the number: the ASCII
      whitespace of the C locale (tab to carriage return, and space) and the
      non-ASCII characters Unicode classes as white space; the ASCII
      separators 0x1C to 0x1F are not stripped. */
  predicate IsSpace(c: char)
  {
    var n := c as int;
    (9 <= n <= 13) || n == 32 || n == 0x85 || n == 0xA0 || n == 0x1680 ||
    (0x2000 <= n <= 0x200A) || n == 0x2028 || n == 0x2029 || n == 0x202F ||
    n == 0x205F || n == 0x3000
  }

  function StripLeft(s: string): (t: string)
    ensures |t| <= |s| && t == s[|s| - |t|..]
    ensures t == [] || !IsSpace(t[0])
  {
    if s != [] && IsSpace(s[0]) then StripLeft(s[1..]) else s
  }

  function StripRight(s: string): (t: string)
    ensures |t| <= |s| && t == s[..|t|]
    ensures t == [] || !IsSpace(t[|t| - 1])
  {
    if s != [] && IsSpace(s[|s| - 1]) then StripRight(s[..|s| - 1]) else s
  }

  predicate AllDigits(s: string)
  {
    forall i :: 0 <= i < |s| ==> '0' <= s[i] <= '9'
  }

  function DigitsValue(s: string): (n: nat)
    requires AllDigits(s)
  {
    if s == [] then 0 else DigitsValue(s[..|s| - 1]) * 10 + (s[|s| - 1] as int - '0' as int)
  }

  /** `int(s)` for a string: surrounding whitespace, an optional sign, then
      one or more decimal digits; anything else raises ValueError (None). */
  function ParseInt(s: string): (r: Option<int>)
  {
    ParseSigned(StripRight(StripLeft(s)))
  }

  /** The text between the whitespace: an optional sign, then digits. */
  function ParseSigned(t: string): (r: Option<int>)
  {
    if t != [] && (t[0] == '+' || t[0] == '-') then
      var body := t[1..];
      if body != [] && AllDigits(body) then
        Some(if t[0] == '-' then -(DigitsValue(body) as int) else DigitsValue(body))
      else None
    else if t != [] && AllDigits(t) then Some(DigitsValue(t))
    else None
  }

  lemma {:induction false} DigitsValueOfDigits(n: nat)
    ensures AllDigits(DigitsOf(n)) && DigitsValue(DigitsOf(n)) == n
    decreases n
  {
    var d := [(48 + n % 10) as char];
    if n >= 10 {
      DigitsValueOfDigits(n / 10);
      var s := DigitsOf(n);
      assert s == DigitsOf(n / 10) + d;
      assert s[..|s| - 1] == DigitsOf(n / 10);
    }
  }

  lemma StripNoSpace(s: string)
    requires s != [] && !IsSpace(s[0]) && !IsSpace(s[|s| - 1])
    ensures StripRight(StripLeft(s)) == s
  {
  }

  lemma ParseIntUnsigned(d: string)
    requires d != [] && AllDigits(d)
    ensures ParseInt(d) == Some(DigitsValue(d))
  {
    StripNoSpace(d);
    ParseSignedUnsigned(d);
  }

  lemma ParseSignedUnsigned(d: string)
    requires d != [] && AllDigits(d)
    ensures ParseSigned(d) == Some(DigitsValue(d))
  {
    assert d[0] != '+' && d[0] != '-';
  }

  lemma ParseSignedNegative(d: string)
    requires d != [] && AllDigits(d)
    ensures ParseSigned("-" + d) == Some(-(DigitsValue(d) as int))
  {
    var s := "-" + d;
    assert s[0] == '-' && s[1..] == d;
  }

  lemma ParseIntNegative(d: string)
    requires d != [] && AllDigits(d)
    ensures ParseInt("-" + d) == Some(-(DigitsValue(d) as int))
  {
    StripNoSpace("-" + d);
    ParseSignedNegative(d);
  }

  /** Reading back a score written in decimal gives the same score. */
  lemma ParseIntOfStr(n: int)
    ensures ParseInt(Str(n)) == Some(n)
  {
    var m: nat := if n < 0 then -n else n;
    var d := DigitsOf(m);
    DigitsValueOfDigits(m);
    if n < 0 {
      assert Str(n) == "-" + d;
      ParseIntNegative(d);
    } else {
      assert Str(n) == d;
      ParseIntUnsigned(d);
    }
  }

  /** Python's `int(v)`: None where it raises ValueError or TypeError. */
  function PyInt(v: Json): Option<int>
  {
    match v
    case JBool(b) => Some(if b then 1 else 0)
    case JInt(i) => Some(i)
    case JFloat(f) => Some(Trunc(f))
    case JStr(s) => ParseInt(s)
    case _ => None
  }

  // ---------------------------------------------------------------------
  // Entry validation

  /** An item of a stored list is kept when it is an object with both a
      'name' and a 'score' member and `int(score)` succeeds. */
  function ValidEntry(v: Json): (r: Option<Entry>)
    ensures r.Some? <==> v.JObject? && "name" in v.fields && "score" in v.fields && PyInt(v.fields["score"]).Some?
    ensures r.Some? ==> r.value == Entry(v.fields["name"], PyInt(v.fields["score"]).value)
  {
    match v
    case JObject(m) =>
      if "name" in m && "score" in m then
        match PyInt(m["score"])
        case Some(n) => Some(Entry(m["name"], n))
        case None => None
      else None
    case _ => None
  }

  /** The valid items of a stored list, in their stored order. */
  function ValidEntries(items: seq<Json>): seq<Entry>
  {
    if items == [] then []
    else
      var last := ValidEntry(items[|items| - 1]);
      ValidEntries(items[..|items| - 1]) + (if last.Some? then [last.value] else [])
  }

  /** An entry survives validation exactly when some stored item validates to it. */
  lemma {:induction false} ValidEntriesMembership(items: seq<Json>, e: Entry)
    ensures e in ValidEntries(items) <==> exists i :: 0 <= i < |items| && ValidEntry(items[i]) == Some(e)
  {
    if items != [] {
      var init := items[..|items| - 1];
      ValidEntriesMembership(init, e);
      if e in ValidEntries(items) {
        if e in ValidEntries(init) {
          var i :| 0 <= i < |init| && ValidEntry(init[i]) == Some(e);
          assert items[i] == init[i];
        } else {
          assert ValidEntry(items[|items| - 1]) == Some(e);
        }
      } else {
        forall i | 0 <= i < |items|
          ensures ValidEntry(items[i]) != Some(e)
        {
          if i < |items| - 1 {
            assert items[i] == init[i];
          }
        }
      }
    }
  }

  // ---------------------------------------------------------------------
  // Stable sort by score, highest first (Python's `sort(key=score, reverse=True)`)

  predicate SortedDesc(s: seq<Entry>)
  {
    forall i, j :: 0 <= i < j < |s| ==> s[i].score >= s[j].score
  }

  /** Number of leading entries scoring at least `score`: where an entry with
      that score goes, after every entry it ties with. */
  function InsertPos(s: seq<Entry>, score: int): (p: nat)
    ensures p <= |s|
    ensures forall i :: 0 <= i < p ==> s[i].score >= score
    ensures p < |s| ==> s[p].score < score
  {
    if s == [] || s[0].score < score then 0 else 1 + InsertPos(s[1..], score)
  }

  /** Inserts `e` after every entry scoring at least as much as it does. */
  function InsertDesc(s: seq<Entry>, e: Entry): seq<Entry>
  {
    if s == [] then [e]
    else if s[0].score >= e.score then [s[0]] + InsertDesc(s[1..], e)
    else [e] + s
  }

  /** The insertion leaves the entries before and after the insertion point as they were. */
  lemma {:induction false} InsertDescSplit(s: seq<Entry>, e: Entry)
    ensures InsertDesc(s, e) == s[..InsertPos(s, e.score)] + [e] + s[InsertPos(s, e.score)..]
  {
    if s != [] && s[0].score >= e.score {
      InsertDescSplit(s[1..], e);
      assert s[1..][..InsertPos(s[1..], e.score)] == s[..InsertPos(s, e.score)][1..];
      assert s[1..][InsertPos(s[1..], e.score)..] == s[InsertPos(s, e.score)..];
    }
  }

  /** Placing `e` at `p` keeps a sorted list sorted when everything before
      `p` scores at least as much as `e` and everything from `p` on no more. */
  lemma SortedSplice(s: seq<Entry>, p: nat, e: Entry)
    requires SortedDesc(s) && p <= |s|
    requires forall k :: 0 <= k < p ==> s[k].score >= e.score
    requires forall k :: p <= k < |s| ==> s[k].score <= e.score
    ensures SortedDesc(s[..p] + [e] + s[p..])
  {
    var r := s[..p] + [e] + s[p..];
    forall i, j | 0 <= i < j < |r|
      ensures r[i].score >= r[j].score
    {
      if j < p {
        assert r[i] == s[i] && r[j] == s[j];
      } else if j == p {
        assert r[i] == s[i];
      } else if i < p {
        assert r[i] == s[i] && r[j] == s[j - 1];
      } else if i == p {
        assert r[j] == s[j - 1];
      } else {
        assert r[i] == s[i - 1] && r[j] == s[j - 1];
      }
    }
  }

  lemma InsertDescSorted(s: seq<Entry>, e: Entry)
    requires SortedDesc(s)
    ensures SortedDesc(InsertDesc(s, e))
  {
    var p := InsertPos(s, e.score);
    InsertDescSplit(s, e);
    forall k | p <= k < |s|
      ensures s[k].score <= e.score
    {
      assert s[p].score < e.score;
    }
    SortedSplice(s, p, e);
  }

  lemma InsertDescPerm(s: seq<Entry>, e: Entry)
    ensures multiset(InsertDesc(s, e)) == multiset(s) + multiset{e}
  {
    var p := InsertPos(s, e.score);
    var a, b := s[..p], s[p..];
    assert s == a + b;
    InsertDescSplit(s, e);
    assert InsertDesc(s, e) == a + [e] + b;
    assert multiset(a + [e] + b) == multiset(a) + multiset([e]) + multiset(b);
  }

  /** The entries scoring exactly `v`, in the order they are listed. */
  function WithScore(s: seq<Entry>, v: int): seq<Entry>
  {
    if s == [] then []
    else WithScore(s[..|s| - 1], v) + (if s[|s| - 1].score == v then [s[|s| - 1]] else [])
  }

  lemma {:induction false} WithScoreConcat(a: seq<Entry>, b: seq<Entry>, v: int)
    ensures WithScore(a + b, v) == WithScore(a, v) + WithScore(b, v)
  {
    if b == [] {
      assert a + b == a;
    } else {
      var init := b[..|b| - 1];
      assert (a + b)[..|a + b| - 1] == a + init;
      assert (a + b)[|a + b| - 1] == b[|b| - 1];
      WithScoreConcat(a, init, v);
    }
  }

  lemma {:induction false} WithScoreOfLower(s: seq<Entry>, v: int)
    requires forall i :: 0 <= i < |s| ==> s[i].score < v
    ensures WithScore(s, v) == []
  {
    if s != [] {
      WithScoreOfLower(s[..|s| - 1], v);
    }
  }

  /** Placing `e` between `a` and `b` adds it, on its own score, after
      everything `a` holds, provided `b` holds nothing it ties with. */
  lemma SpliceWithScore(a: seq<Entry>, b: seq<Entry>, e: Entry, v: int)
    requires e.score == v ==> forall k :: 0 <= k < |b| ==> b[k].score < v
    ensures WithScore(a + [e] + b, v) == WithScore(a + b, v) + (if e.score == v then [e] else [])
  {
    WithScoreConcat(a + [e], b, v);
    WithScoreConcat(a, [e], v);
    WithScoreConcat(a, b, v);
    assert [e][..0] == [];
    if e.score == v {
      WithScoreOfLower(b, v);
    }
  }

  /** Inserting into a sorted list puts `e` after every entry it ties with
      and leaves the order among the others alone. */
  lemma InsertDescWithScore(s: seq<Entry>, e: Entry, v: int)
    requires SortedDesc(s)
    ensures WithScore(InsertDesc(s, e), v) == WithScore(s, v) + (if e.score == v then [e] else [])
  {
    var p := InsertPos(s, e.score);
    InsertDescSplit(s, e);
    assert s == s[..p] + s[p..];
    forall k | 0 <= k < |s[p..]|
      ensures s[p..][k].score < e.score
    {
      assert s[p].score < e.score && s[p].score >= s[p + k].score;
    }
    SpliceWithScore(s[..p], s[p..], e, v);
  }

  lemma InsertDescStep(rest: seq<Entry>, init: seq<Entry>, last: Entry)
    requires SortedDesc(rest) && multiset(rest) == multiset(init) && |rest| == |init|
    requires forall v :: WithScore(rest, v) == WithScore(init, v)
    ensures SortedDesc(InsertDesc(rest, last))
    ensures multiset(InsertDesc(rest, last)) == multiset(init + [last])
    ensures |InsertDesc(rest, last)| == |init| + 1
    ensures forall v :: WithScore(InsertDesc(rest, last), v) == WithScore(init + [last], v)
  {
    InsertDescSorted(rest, last);
    InsertDescPerm(rest, last);
    forall v
      ensures WithScore(InsertDesc(rest, last), v) == WithScore(init + [last], v)
    {
      InsertDescWithScore(rest, last, v);
      assert (init + [last])[..|init|] == init;
    }
  }

  /** Insertion sort; entries with equal scores keep their relative order. */
  function SortDesc(s: seq<Entry>): (r: seq<Entry>)
    ensures SortedDesc(r)
    ensures multiset(r) == multiset(s)
    ensures |r| == |s|
    ensures forall v :: WithScore(r, v) == WithScore(s, v)
  {
    if s == [] then []
    else
      var rest := SortDesc(s[..|s| - 1]);
      InsertDescStep(rest, s[..|s| - 1], s[|s| - 1]);
      assert s[..|s| - 1] + [s[|s| - 1]] == s;
      InsertDesc(rest, s[|s| - 1])
  }

  /** An entry that scores no more than anything already listed goes last. */
  lemma InsertDescAtEnd(s: seq<Entry>, e: Entry)
    requires forall i :: 0 <= i < |s| ==> s[i].score >= e.score
    ensures InsertDesc(s, e) == s + [e]
  {
    InsertPosAtEnd(s, e.score);
    InsertDescSplit(s, e);
  }

  /** Sorting a list that is already sorted leaves it as it is (stability). */
  lemma {:induction false} SortDescOfSorted(s: seq<Entry>)
    requires SortedDesc(s)
    ensures SortDesc(s) == s
  {
    if s != [] {
      var init := s[..|s| - 1];
      SortDescOfSorted(init);
      InsertDescAtEnd(init, s[|s| - 1]);
      assert init + [s[|s| - 1]] == s;
    }
  }

  /** Appending one entry to a sorted list and sorting is inserting it after its ties. */
  lemma AppendThenSort(s: seq<Entry>, e: Entry)
    requires SortedDesc(s)
    ensures SortDesc(s + [e]) == InsertDesc(s, e)
  {
    assert (s + [e])[..|s|] == s;
    SortDescOfSorted(s);
  }

  /** Python's `list[:5]`. */
  function Top(s: seq<Entry>): (r: seq<Entry>)
    ensures |r| <= MaxHighScores && |r| <= |s| && r == s[..|r|]
    ensures |s| <= MaxHighScores ==> r == s
  {
    if |s| <= MaxHighScores then s else s[..MaxHighScores]
  }

  lemma TopSorted(s: seq<Entry>)
    requires SortedDesc(s)
    ensures SortedDesc(Top(s))
  {
  }

  // ---------------------------------------------------------------------
  // Loading

  /** The list kept for one duration key: the valid entries, sorted, top 5.
      A value that is not a list leaves the key's default empty list. */
  function Bucket(v: Json): seq<Entry>
  {
    if v.JList? then Top(SortDesc(ValidEntries(v.items))) else []
  }

  function DefaultBoard(): Board
  {
    map["30" := [], "60" := []]
  }

  function Normalised(m: map<string, Json>): Board
  {
    map k | k in DurationKeys :: if k in m then Bucket(m[k]) else []
  }

  /** The board loading yields; a document that is not a JSON object counts as
      malformed and yields the default board, like text that is not JSON. */
  function LoadedBoard(f: StoredFile): Board
  {
    match f
    case Parsed(JObject(m)) => Normalised(m)
    case _ => DefaultBoard()
  }

  /** Loading as the source is written: a document that parses but is not an
      object makes `.items()` raise AttributeError, which nothing catches. */
  datatype LoadOutcome = Loaded(board: Board) | Crashed

  function LoadAsWritten(f: StoredFile): (r: LoadOutcome)
    ensures r.Loaded? ==> r.board == LoadedBoard(f)
    ensures r.Crashed? <==> f.Parsed? && !f.content.JObject?
  {
    match f
    case Missing => Loaded(DefaultBoard())
    case Unreadable => Loaded(DefaultBoard())
    case Parsed(JObject(m)) => Loaded(Normalised(m))
    case Parsed(_) => Crashed
  }

  /** A high-score file holding `[]` stops the program instead of loading defaults. */
  lemma TopLevelListCrashes()
    ensures LoadAsWritten(Parsed(JList([]))) == Crashed
    ensures LoadedBoard(Parsed(JList([]))) == DefaultBoard()
  {
  }

  predicate WellFormed(b: Board)
  {
    b.Keys == DurationKeys &&
    forall k :: k in b ==> SortedDesc(b[k]) && |b[k]| <= MaxHighScores
  }

  /** Whatever the file holds, loading yields exactly the keys "30" and "60",
      each a list of at most five entries sorted by score, highest first. */
  lemma LoadedBoardWellFormed(f: StoredFile)
    ensures WellFormed(LoadedBoard(f))
  {
    var b := LoadedBoard(f);
    forall k | k in b
      ensures SortedDesc(b[k]) && |b[k]| <= MaxHighScores
    {
      if f.Parsed? && f.content.JObject? && k in f.content.fields && f.content.fields[k].JList? {
        var sorted := SortDesc(ValidEntries(f.content.fields[k].items));
        assert b[k] == Top(sorted);
      }
    }
  }

  /** Cutting a sorted list to five drops nothing that beats the fifth entry. */
  lemma TopKeepsBest(sorted: seq<Entry>)
    requires SortedDesc(sorted)
    ensures multiset(Top(sorted)) <= multiset(sorted)
    ensures forall e :: e in multiset(sorted) - multiset(Top(sorted)) ==>
              |Top(sorted)| == MaxHighScores && e.score <= Top(sorted)[MaxHighScores - 1].score
  {
    var t := Top(sorted);
    var n := |t|;
    assert sorted == t + sorted[n..];
    assert multiset(sorted) == multiset(t) + multiset(sorted[n..]);
    forall e | e in multiset(sorted) - multiset(t)
      ensures n == MaxHighScores && e.score <= t[MaxHighScores - 1].score
    {
      assert e in multiset(sorted[n..]);
      var j :| n <= j < |sorted| && sorted[j] == e;
      assert sorted[n - 1] == t[n - 1];
    }
  }

  /** A stored list keeps only valid entries, and whatever it drops scores no
      higher than the fifth entry it keeps. */
  lemma BucketKeepsBest(items: seq<Json>)
    ensures multiset(Bucket(JList(items))) <= multiset(ValidEntries(items))
    ensures forall e :: e in multiset(ValidEntries(items)) - multiset(Bucket(JList(items))) ==>
              |Bucket(JList(items))| == MaxHighScores && e.score <= Bucket(JList(items))[MaxHighScores - 1].score
  {
    var sorted := SortDesc(ValidEntries(items));
    assert Bucket(JList(items)) == Top(sorted);
    TopKeepsBest(sorted);
  }

  /** The inner loop of loading: keeps the valid items of one stored list,
      in their stored order. */
  method CollectValid(items: seq<Json>) returns (valid: seq<Entry>)
    ensures valid == ValidEntries(items)
  {
    valid := [];
    var i := 0;
    while i < |items|
      invariant 0 <= i <= |items|
      invariant valid == ValidEntries(items[..i])
    {
      assert items[..i + 1][..i] == items[..i];
      var e := ValidEntry(items[i]);
      if e.Some? {
        valid := valid + [e.value];
      }
      i := i + 1;
    }
    assert items[..|items|] == items;
  }

  /** One stored list: its valid items, sorted by score, highest first, and
      cut to the best five. */
  method LoadList(items: seq<Json>) returns (bucket: seq<Entry>)
    ensures bucket == Bucket(JList(items))
  {
    var valid := CollectValid(items);
    valid := SortDesc(valid);
    bucket := Top(valid);
  }

  /** Reads the high-score file into a board: the loop of the source over the
      stored keys, keeping the lists stored under "30" and "60". */
  method LoadHighScores(file: StoredFile) returns (scores: Board)
    ensures scores == LoadedBoard(file)
    ensures WellFormed(scores)
  {
    scores := DefaultBoard();
    if !file.Parsed? || !file.content.JObject? {
      LoadedBoardWellFormed(file);
      return;
    }
    var m := file.content.fields;
    var keys := m.Keys;
    while keys != {}
      invariant keys <= m.Keys
      invariant scores.Keys == DurationKeys
      invariant forall k :: k in DurationKeys ==> scores[k] == (if k in m && k !in keys then Bucket(m[k]) else [])
      decreases keys
    {
      var k :| k in keys;
      keys := keys - {k};
      if k in DurationKeys && m[k].JList? {
        var bucket := LoadList(m[k].items);
        scores := scores[k := bucket];
      }
    }
    assert scores == Normalised(m);
    LoadedBoardWellFormed(file);
  }

  // ---------------------------------------------------------------------
  // Qualifying and submitting

  /** A score qualifies when the list has room or it beats the last entry. */
  function Qualifies(list: seq<Entry>, score: int): bool
  {
    |list| < MaxHighScores || score > list[|list| - 1].score
  }

  lemma {:induction false} InsertPosAtEnd(s: seq<Entry>, score: int)
    requires forall i :: 0 <= i < |s| ==> s[i].score >= score
    ensures InsertPos(s, score) == |s|
  {
    if s != [] {
      InsertPosAtEnd(s[1..], score);
    }
  }

  lemma {:induction false} InsertPosBefore(s: seq<Entry>, score: int, k: nat)
    requires k < |s| && s[k].score < score
    ensures InsertPos(s, score) <= k
  {
    if s[0].score >= score {
      InsertPosBefore(s[1..], score, k - 1);
    }
  }

  /** On a sorted list of at most five, a score qualifies exactly when its
      entry would be inserted within the first five places. */
  lemma QualifiesIffKept(list: seq<Entry>, score: int)
    requires SortedDesc(list) && |list| <= MaxHighScores
    ensures Qualifies(list, score) <==> InsertPos(list, score) < MaxHighScores
  {
    if |list| == MaxHighScores {
      if score <= list[|list| - 1].score {
        InsertPosAtEnd(list, score);
      } else {
        InsertPosBefore(list, score, |list| - 1);
      }
    }
  }

  /** Enter in name entry: append the entry, sort, keep the top five. */
  function Submit(b: Board, key: string, e: Entry): Board
  {
    var list := if key in b then b[key] else [];
    b[key := Top(SortDesc(list + [e]))]
  }

  /** Submitting keeps a well-formed board well-formed, touches only its own
      key, and places the entry after the entries it ties with. */
  lemma SubmitInserts(b: Board, key: string, e: Entry)
    requires WellFormed(b) && key in DurationKeys
    ensures WellFormed(Submit(b, key, e))
    ensures Submit(b, key, e)[key] == Top(InsertDesc(b[key], e))
    ensures forall k :: k in b && k != key ==> Submit(b, key, e)[k] == b[k]
  {
    var list := b[key];
    AppendThenSort(list, e);
    InsertDescSorted(list, e);
    var top := Top(InsertDesc(list, e));
    TopSorted(InsertDesc(list, e));
    var nb := Submit(b, key, e);
    assert nb[key] == top;
    forall k | k in nb
      ensures SortedDesc(nb[k]) && |nb[k]| <= MaxHighScores
    {
      if k != key {
        assert nb[k] == b[k];
      }
    }
  }

  /** With a full list, a qualifying score is kept and the lowest entry drops. */
  lemma SubmitQualifyingScore(list: seq<Entry>, e: Entry)
    requires SortedDesc(list) && |list| == MaxHighScores && Qualifies(list, e.score)
    ensures e in Top(InsertDesc(list, e))
    ensures Top(InsertDesc(list, e)) == list[..InsertPos(list, e.score)] + [e] + list[InsertPos(list, e.score)..MaxHighScores - 1]
  {
    QualifiesIffKept(list, e.score);
    var p := InsertPos(list, e.score);
    var r := InsertDesc(list, e);
    InsertDescSplit(list, e);
    assert r[p] == e;
    assert Top(r) == r[..MaxHighScores];
  }
}
