/**
 * The numeric input buffer of cmd/events.go: the edits a key press makes to
 * the buffer, parseInput's reading of "count", "count,complexity" and
 * "complexity" out of it, and the cap on how many of the closest clusters
 * the D key deletes.
 *
 * Go's strconv.Atoi and strings.TrimSpace / strings.Index are written out
 * here as the functions Atoi, TrimSpace and FirstIndex.
 */
module InputEvents {
  import opened Wrappers
  import opened ClusterManagement

  /** The keys handleKey tells apart before dispatching. */
  datatype Key = Digit(d: int) | Comma | Escape | Space | KeyC | KeyD | Other

  datatype Action = Press | Release | Repeat

  predicate ValidKey(k: Key)
  {
    k.Digit? ==> 0 <= k.d <= 9
  }

  predicate IsDigit(c: char)
  {
    '0' <= c <= '9'
  }

  predicate AllDigits(s: string)
  {
    forall i :: 0 <= i < |s| ==> IsDigit(s[i])
  }

  /** The only characters a key press ever puts in the buffer. */
  predicate BufferChars(s: string)
  {
    forall i :: 0 <= i < |s| ==> IsDigit(s[i]) || s[i] == ','
  }

  function DigitChar(d: int): (c: char)
    requires 0 <= d <= 9
    ensures IsDigit(c) && c as int - '0' as int == d
  {
    ('0' as int + d) as char
  }

  function DigitValue(c: char): (d: int)
    requires IsDigit(c)
    ensures 0 <= d <= 9 && DigitChar(d) == c
  {
    c as int - '0' as int
  }

  // ---------------------------------------------------------------------
  // Key presses
  // ---------------------------------------------------------------------

  /**
   * The buffer after one key event: on a press, a digit or a comma is
   * appended, Escape clears, Space, C and D leave it for their handlers and
   * every other key clears it; releases and repeats never touch it.
   */
  function KeyEffect(buf: string, k: Key, a: Action): (r: string)
    requires ValidKey(k)
    ensures a != Press ==> r == buf
    ensures r == buf || r == [] || (|r| == |buf| + 1 && r[..|buf|] == buf)
    ensures BufferChars(buf) ==> BufferChars(r)
  {
    if a != Press then buf
    else match k
      case Digit(d) => buf + [DigitChar(d)]
      case Comma => buf + [',']
      case Escape => []
      case Space => buf
      case KeyC => buf
      case KeyD => buf
      case Other => []
  }

  predicate AllValid(keys: seq<Key>)
  {
    forall i :: 0 <= i < |keys| ==> ValidKey(keys[i])
  }

  /** The buffer after a run of key presses. */
  function Typed(buf: string, keys: seq<Key>): (r: string)
    requires AllValid(keys)
    ensures BufferChars(buf) ==> BufferChars(r)
    decreases |keys|
  {
    if keys == [] then buf else Typed(KeyEffect(buf, keys[0], Press), keys[1..])
  }

  /** The keys to press to type a string of digits and commas. */
  function KeysFor(s: string): (keys: seq<Key>)
    requires BufferChars(s)
    ensures |keys| == |s| && AllValid(keys)
  {
    seq(|s|, i requires 0 <= i < |s| => if s[i] == ',' then Comma else Digit(DigitValue(s[i])))
  }

  /** Typing the keys for s appends exactly s. */
  lemma {:induction false} TypedKeysFor(buf: string, s: string)
    requires BufferChars(s)
    ensures Typed(buf, KeysFor(s)) == buf + s
    decreases |s|
  {
    if s != [] {
      var keys := KeysFor(s);
      assert keys[1..] == KeysFor(s[1..]);
      assert KeyEffect(buf, keys[0], Press) == buf + [s[0]];
      TypedKeysFor(buf + [s[0]], s[1..]);
      assert buf + [s[0]] + s[1..] == buf + s;
    }
  }

  // ---------------------------------------------------------------------
  // strings.Index, strings.TrimSpace, strconv.Atoi
  // ---------------------------------------------------------------------

  /** strings.Index for a one-character separator: the first position holding c. */
  function FirstIndex(s: string, c: char): (r: Option<nat>)
    ensures r.None? <==> c !in s
    ensures r.Some? ==> r.value < |s| && s[r.value] == c && forall k :: 0 <= k < r.value ==> s[k] != c
  {
    if s == [] then None
    else if s[0] == c then Some(0)
    else match FirstIndex(s[1..], c)
      case None => None
      case Some(i) => Some(i + 1)
  }

  lemma FirstIndexAt(s: string, c: char, i: nat)
    requires i < |s| && s[i] == c && forall k :: 0 <= k < i ==> s[k] != c
    ensures FirstIndex(s, c) == Some(i)
  {
    assert s[i] in s;
  }

  /** unicode.IsSpace: the Latin-1 spaces and the other White_Space code points. */
  predicate IsSpace(c: char)
  {
    var n := c as int;
    || n in {0x09, 0x0a, 0x0b, 0x0c, 0x0d, 0x20, 0x85, 0xa0, 0x1680, 0x2028, 0x2029, 0x202f, 0x205f, 0x3000}
    || (0x2000 <= n <= 0x200a)
  }

  function TrimLeft(s: string): (r: string)
    ensures |r| <= |s| && r == s[|s| - |r|..]
    ensures forall i :: 0 <= i < |s| - |r| ==> IsSpace(s[i])
    ensures r != [] ==> !IsSpace(r[0])
  {
    if s != [] && IsSpace(s[0]) then TrimLeft(s[1..]) else s
  }

  function TrimRight(s: string): (r: string)
    ensures |r| <= |s| && r == s[..|r|]
    ensures forall i :: |r| <= i < |s| ==> IsSpace(s[i])
    ensures r != [] ==> !IsSpace(r[|r| - 1])
  {
    if s != [] && IsSpace(s[|s| - 1]) then TrimRight(s[..|s| - 1]) else s
  }

  /** strings.TrimSpace: s without its leading and trailing white space; s itself when it has none. */
  function TrimSpace(s: string): (r: string)
    ensures (forall i :: 0 <= i < |s| ==> !IsSpace(s[i])) ==> r == s
  {
    TrimRight(TrimLeft(s))
  }

  /** TrimSpace leaves no white space at either end. */
  lemma TrimSpaceEnds(s: string)
    ensures TrimSpace(s) != [] ==> !IsSpace(TrimSpace(s)[0]) && !IsSpace(TrimSpace(s)[|TrimSpace(s)| - 1])
  {
    var l := TrimLeft(s);
    var r := TrimRight(l);
    if r != [] {
      assert r[0] == l[0];
    }
  }

  /** TrimSpace leaves nothing exactly when s is all white space. */
  lemma TrimSpaceEmpty(s: string)
    ensures TrimSpace(s) == [] <==> forall i :: 0 <= i < |s| ==> IsSpace(s[i])
  {
    var l := TrimLeft(s);
    assert l != [] ==> l[0] == s[|s| - |l|];
    assert TrimRight(l) == [] ==> l == [];
  }

  /** The value of a non-empty run of decimal digits. */
  function DigitsValue(s: string): (v: nat)
    requires AllDigits(s)
  {
    if s == [] then 0 else DigitsValue(s[..|s| - 1]) * 10 + DigitValue(s[|s| - 1])
  }

  /**
   * strconv.Atoi (ParseInt in base 10 to a 64-bit int): an optional sign,
   * then at least one digit and nothing else, and the value must fit in
   * int64; anything else is an error.
   */
  function Atoi(s: string): (r: Option<int>)
    ensures r.Some? ==> IsInt64(r.value)
    ensures r.Some? && '-' !in s ==> r.value >= 0
    ensures r.Some? ==> s != [] && (s[0] == '+' || s[0] == '-' || IsDigit(s[0]))
  {
    if s == [] then None
    else
      var body := if s[0] == '+' || s[0] == '-' then s[1..] else s;
      if body == [] || !AllDigits(body) then None
      else
        var v := if s[0] == '-' then -(DigitsValue(body) as int) else DigitsValue(body) as int;
        if IsInt64(v) then Some(v) else None
  }

  /** strconv.Itoa for a non-negative value. */
  function Decimal(n: nat): (s: string)
    ensures s != [] && AllDigits(s)
  {
    if n < 10 then [DigitChar(n)] else Decimal(n / 10) + [DigitChar(n % 10)]
  }

  lemma {:induction false} DecimalValue(n: nat)
    ensures DigitsValue(Decimal(n)) == n
  {
    if n >= 10 {
      var s := Decimal(n);
      assert s[..|s| - 1] == Decimal(n / 10);
      DecimalValue(n / 10);
    }
  }

  /** Atoi reads back what Itoa writes, up to the int64 bound, and rejects it beyond. */
  lemma AtoiDecimal(n: nat)
    ensures Atoi(Decimal(n)) == if n <= Int64Max then Some(n) else None
  {
    DecimalValue(n);
  }

  lemma DigitsNoSpace(s: string)
    requires BufferChars(s)
    ensures forall i :: 0 <= i < |s| ==> !IsSpace(s[i])
  {
  }

  lemma EmptyParts()
    ensures CountPart([]) == 0 && ComplexityPart([]) == None
  {
    assert TrimSpace([]) == [];
  }

  lemma TrimDecimal(n: nat)
    ensures TrimSpace(Decimal(n)) == Decimal(n)
  {
    DigitsNoSpace(Decimal(n));
  }

  // ---------------------------------------------------------------------
  // parseInput
  // ---------------------------------------------------------------------

  /**
   * What parseInput returns for a buffer: (1, None) for an empty buffer;
   * with a comma, the count before the first comma (0 if missing or not a
   * number) and the complexity after it (None likewise); without one, the
   * number is the count for action "d" and the complexity, with count 1,
   * for the others; (0, None) when the text is not a number.
   */
  function Parse(input: string, action: string): (r: (int, Option<int>))
    ensures input == [] ==> r == (1, None)
    ensures ',' !in input && action == "d" ==> r.1 == None
    ensures ',' !in input && action != "d" && input != [] ==> (r.0 == 1 <==> r.1.Some?) && (r.0 == 0 <==> r.1.None?)
  {
    if input == [] then (1, None)
    else match FirstIndex(input, ',')
      case Some(i) =>
        (CountPart(input[..i]), ComplexityPart(input[i + 1..]))
      case None =>
        match Atoi(input)
        case None => (0, None)
        case Some(v) => if action == "d" then (v, None) else (1, Some(v))
  }

  /** The count before the comma: its number when it is one, else 0. */
  function CountPart(s: string): (r: int)
    ensures Atoi(TrimSpace(s)).Some? ==> r == Atoi(TrimSpace(s)).value
    ensures Atoi(TrimSpace(s)).None? ==> r == 0
  {
    var countStr := TrimSpace(s);
    if countStr != [] && Atoi(countStr).Some? then Atoi(countStr).value else 0
  }

  /** The complexity after the comma: its number when it is one, else none. */
  function ComplexityPart(s: string): (r: Option<int>)
    ensures r == Atoi(TrimSpace(s))
  {
    var complexityStr := TrimSpace(s);
    if complexityStr != [] then Atoi(complexityStr) else None
  }

  /** A typed number alone: the count for "d", the complexity (count 1) otherwise. */
  lemma ParseNumber(n: nat, action: string)
    requires n <= Int64Max
    ensures Parse(Decimal(n), action) == if action == "d" then (n, None) else (1, Some(n))
  {
    AtoiDecimal(n);
    assert Decimal(n)[0] in Decimal(n);
  }

  /** A number too large for int64 is not a number: nothing is parsed. */
  lemma ParseOverflow(n: nat, action: string)
    requires n > Int64Max
    ensures Parse(Decimal(n), action) == (0, None)
  {
    AtoiDecimal(n);
  }

  /** "count,complexity" gives both, whatever the action. */
  lemma ParsePair(count: nat, complexity: nat, action: string)
    requires count <= Int64Max && complexity <= Int64Max
    ensures Parse(Decimal(count) + [','] + Decimal(complexity), action) == (count, Some(complexity))
  {
    var c := Decimal(count);
    var x := Decimal(complexity);
    var input := c + [','] + x;
    FirstIndexAt(input, ',', |c|);
    assert input[..|c|] == c;
    assert input[|c| + 1..] == x;
    TrimDecimal(count);
    TrimDecimal(complexity);
    AtoiDecimal(count);
    AtoiDecimal(complexity);
  }

  /** "count," gives the count and no complexity. */
  lemma ParseCountOnly(count: nat, action: string)
    requires count <= Int64Max
    ensures Parse(Decimal(count) + [','], action) == (count, None)
  {
    var c := Decimal(count);
    var input := c + [','];
    FirstIndexAt(input, ',', |c|);
    assert input[..|c|] == c;
    assert input[|c| + 1..] == [];
    EmptyParts();
    TrimDecimal(count);
    AtoiDecimal(count);
    assert Atoi(TrimSpace(c)) == Some(count);
    assert CountPart(input[..|c|]) == count;
    assert ComplexityPart(input[|c| + 1..]) == None;
  }

  /** ",complexity" gives count 0 (not the default 1) and the complexity. */
  lemma ParseComplexityOnly(complexity: nat, action: string)
    requires complexity <= Int64Max
    ensures Parse([','] + Decimal(complexity), action) == (0, Some(complexity))
  {
    var x := Decimal(complexity);
    var input := [','] + x;
    FirstIndexAt(input, ',', 0);
    assert input[..0] == [];
    assert input[1..] == x;
    EmptyParts();
    TrimDecimal(complexity);
    AtoiDecimal(complexity);
    assert ComplexityPart(x) == Some(complexity);
  }

  /** Whatever keys were pressed, the parsed count and complexity are never negative. */
  lemma ParseTypedNonNegative(input: string, action: string)
    requires BufferChars(input)
    ensures Parse(input, action).0 >= 0
    ensures Parse(input, action).1.Some? ==> Parse(input, action).1.value >= 0
  {
    if input != [] {
      match FirstIndex(input, ',')
      case Some(i) => CommaNonNegative(input, i, action);
      case None => NoCommaNonNegative(input, action);
    }
  }

  lemma CommaNonNegative(input: string, i: nat, action: string)
    requires BufferChars(input) && input != [] && FirstIndex(input, ',') == Some(i)
    ensures Parse(input, action).0 >= 0
    ensures Parse(input, action).1.Some? ==> Parse(input, action).1.value >= 0
  {
    var count, complexity := input[..i], input[i + 1..];
    assert BufferChars(count) by {
      forall k | 0 <= k < |count| ensures IsDigit(count[k]) || count[k] == ',' {
        assert count[k] == input[k];
      }
    }
    assert BufferChars(complexity) by {
      forall k | 0 <= k < |complexity| ensures IsDigit(complexity[k]) || complexity[k] == ',' {
        assert complexity[k] == input[i + 1 + k];
      }
    }
    PartsNonNegative(count);
    PartsNonNegative(complexity);
  }

  lemma NoCommaNonNegative(input: string, action: string)
    requires BufferChars(input) && input != [] && FirstIndex(input, ',') == None
    ensures Parse(input, action).0 >= 0
    ensures Parse(input, action).1.Some? ==> Parse(input, action).1.value >= 0
  {
    assert '-' !in input;
  }

  /** Either side of the comma, typed text never parses to a negative number. */
  lemma PartsNonNegative(s: string)
    requires BufferChars(s)
    ensures CountPart(s) >= 0
    ensures ComplexityPart(s).Some? ==> ComplexityPart(s).value >= 0
  {
    DigitsNoSpace(s);
    assert '-' !in s;
  }

  /** Typing the digits of n and pressing an action key hands n to that action. */
  lemma TypeThenParse(n: nat, action: string)
    requires n <= Int64Max
    ensures Parse(Typed([], KeysFor(Decimal(n))), action) == if action == "d" then (n, None) else (1, Some(n))
  {
    TypedKeysFor([], Decimal(n));
    assert [] + Decimal(n) == Decimal(n);
    ParseNumber(n, action);
  }

  /** The number of closest clusters the D key deletes: the parsed count, capped at how many were found. */
  function DeleteCount(batchCount: int, found: nat): (r: int)
    ensures r <= found && r <= batchCount
    ensures r == batchCount || r == found
  {
    if batchCount > found then found else batchCount
  }

  /** The ids among the first n of the closest clusters. */
  function Firsts(closest: seq<int>, n: int): (r: set<int>)
    ensures forall k :: 0 <= k < n && k < |closest| ==> closest[k] in r
    ensures forall id :: id in r ==> id in closest
  {
    set k | 0 <= k < n && k < |closest| :: closest[k]
  }

  lemma FirstsEmpty(closest: seq<int>, n: int)
    requires closest == []
    ensures Firsts(closest, n) == {}
  {
  }

  lemma FirstsNone(closest: seq<int>, n: int)
    requires n <= 0
    ensures Firsts(closest, n) == {}
  {
  }

  lemma FirstsStep(closest: seq<int>, i: nat)
    requires i < |closest|
    ensures Firsts(closest, i + 1) == Firsts(closest, i) + {closest[i]}
  {
    assert closest[i] in Firsts(closest, i + 1);
  }

  /** The removal loop of handleDeleteClusterKey: removes the first n of the closest ids. */
  method RemoveFirsts(mgr: ClusterManager, closest: seq<int>, n: int)
    requires mgr.Valid() && n <= |closest|
    modifies mgr
    ensures mgr.Valid()
    ensures mgr.clusters == old(mgr.clusters) - Firsts(closest, n)
    ensures mgr.nextID == old(mgr.nextID) && mgr.currentSeed == old(mgr.currentSeed)
  {
    var i := 0;
    while i < n
      invariant 0 <= i && (n >= 0 ==> i <= n) && (n < 0 ==> i == 0)
      invariant mgr.Valid()
      invariant mgr.clusters == old(mgr.clusters) - Firsts(closest, i)
      invariant mgr.nextID == old(mgr.nextID) && mgr.currentSeed == old(mgr.currentSeed)
    {
      var _ := mgr.RemoveCluster(closest[i]);
      FirstsStep(closest, i);
      i := i + 1;
    }
    if n < 0 {
      FirstsNone(closest, n);
      FirstsNone(closest, 0);
    } else {
      assert i == n;
    }
  }

  // ---------------------------------------------------------------------
  // The event handler's buffer
  // ---------------------------------------------------------------------

  class EventHandlers {
    var inputBuffer: string

    constructor()
      ensures inputBuffer == []
    {
      inputBuffer := [];
    }

    /** The buffer edits at the top of handleKey; dispatching to the key's handler is not modelled. */
    method HandleKey(key: Key, action: Action)
      requires ValidKey(key)
      modifies this
      ensures inputBuffer == KeyEffect(old(inputBuffer), key, action)
    {
      if action == Press {
        if key.Digit? {
          inputBuffer := inputBuffer + [('0' as int + key.d) as char];
          return;
        }
        if key == Comma {
          inputBuffer := inputBuffer + [','];
          return;
        }
        if key == Escape {
          inputBuffer := [];
          return;
        }
        if !(key == Space || key == KeyC || key == KeyD) {
          inputBuffer := [];
        }
      }
    }

    /** parseInput: returns Parse of the buffer and leaves the buffer empty. */
    method ParseInput(action: string) returns (count: int, complexity: Option<int>)
      modifies this
      ensures (count, complexity) == Parse(old(inputBuffer), action)
      ensures inputBuffer == []
    {
      count, complexity := 0, None;
      var input := inputBuffer;
      if input == [] {
        return 1, None;
      }
      var commaIndex := FirstIndex(input, ',');
      if commaIndex.Some? {
        var countStr := TrimSpace(input[..commaIndex.value]);
        if countStr != [] {
          var val := Atoi(countStr);
          if val.Some? {
            count := val.value;
          }
        }
        var complexityStr := TrimSpace(input[commaIndex.value + 1..]);
        if complexityStr != [] {
          var val := Atoi(complexityStr);
          if val.Some? {
            complexity := val;
          }
        }
      } else {
        var val := Atoi(input);
        if val.Some? {
          if action == "d" {
            count := val.value;
          } else {
            count := 1;
            complexity := val;
          }
        }
      }
      inputBuffer := [];
    }

    /**
     * handleDeleteClusterKey, given the ids of the clusters closest to the
     * mouse: parses the buffer as a "d" count, caps it at the number found
     * and removes that many of the closest clusters from the manager.
     */
    method HandleDeleteClusterKey(mgr: ClusterManager, closest: seq<int>)
      requires mgr.Valid()
      modifies this, mgr
      ensures inputBuffer == []
      ensures mgr.Valid()
      ensures mgr.clusters == old(mgr.clusters) - Firsts(closest, DeleteCount(Parse(old(inputBuffer), "d").0, |closest|))
      ensures mgr.nextID == old(mgr.nextID) && mgr.currentSeed == old(mgr.currentSeed)
    {
      var batchCount, _ := ParseInput("d");
      ghost var parsed := batchCount;
      if |closest| == 0 {
        FirstsEmpty(closest, DeleteCount(parsed, 0));
        return;
      }
      if batchCount > |closest| {
        batchCount := |closest|;
      }
      RemoveFirsts(mgr, closest, batchCount);
    }
  }
}
