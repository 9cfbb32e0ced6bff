/**
 * The request handler (src/command.rs): a minimal reader for RESP arrays of
 * bulk strings that dispatches SET, GET and PING to the cache.
 *
 * The handler only looks at which lines start with `*` or `$`: the element
 * count after `*` and the length after `$` are never read. The shared
 * `Arc<Mutex<Lru>>` becomes a plain reference to the cache; the lock is not
 * modelled.
 */
module Command {
  import opened Wrappers
  import opened Values
  import opened LinkedList
  import opened Cache

  const ErrInvalid := "-ERR invalid command\r\n"
  const ErrMalformedBulk := "-ERR malformed bulk string\r\n"
  const ErrEmpty := "-ERR empty command\r\n"
  const ErrSetArity := "-ERR wrong number of arguments for 'SET'\r\n"
  const ErrGetArity := "-ERR wrong number of arguments for 'GET'\r\n"
  const ErrValue := "-ERR value must be string or int\r\n"
  const ErrUnknown := "-ERR unknown command\r\n"
  const Ok := "+OK\r\n"
  const Pong := "+PONG\r\n"
  const NullBulk := "$-1\r\n"

  /** `str::starts_with(char)`. */
  predicate StartsWith(s: string, c: char)
  {
    |s| > 0 && s[0] == c
  }

  /* ---------- `str::lines` ---------- */

  /** Where the first '\n' of `s` is, or `|s|` when there is none. */
  function NewlineAt(s: string): (n: nat)
    ensures n <= |s| && '\n' !in s[..n]
    ensures n < |s| ==> s[n] == '\n'
  {
    if s == [] || s[0] == '\n' then 0
    else
      var n := 1 + NewlineAt(s[1..]);
      assert s[..n] == [s[0]] + s[1..][..n - 1];
      n
  }

  /**
   * Rust's `str::lines`: the text is cut after every '\n'; each piece loses
   * its '\n' and then one '\r' just before it. A final piece without '\n'
   * is kept as it is, and a trailing '\n' yields no empty last line.
   */
  function Lines(s: string): seq<string>
    decreases |s|
  {
    if s == [] then []
    else
      var n := NewlineAt(s);
      if n == |s| then [s]
      else
        var line := s[..n];
        [if |line| > 0 && line[|line| - 1] == '\r' then line[..|line| - 1] else line] + Lines(s[n + 1..])
  }

  /** The lines of a request, each followed by "\r\n". */
  function JoinCrlf(ls: seq<string>): string
  {
    if ls == [] then "" else ls[0] + "\r\n" + JoinCrlf(ls[1..])
  }

  predicate NoNewline(ls: seq<string>)
  {
    forall i :: 0 <= i < |ls| ==> '\n' !in ls[i]
  }

  lemma {:induction false} NewlineAfter(a: string, b: string)
    requires '\n' !in a
    ensures NewlineAt(a + b) == |a| + NewlineAt(b)
  {
    if a == [] {
      assert a + b == b;
    } else {
      assert a == [a[0]] + a[1..];
      assert (a + b)[0] == a[0] != '\n';
      assert (a + b)[1..] == a[1..] + b;
      NewlineAfter(a[1..], b);
      assert NewlineAt(a + b) == 1 + NewlineAt((a + b)[1..]);
    }
  }

  /** `lines` undoes the "\r\n" framing of lines that hold no '\n'. */
  lemma {:induction false} LinesOfJoin(ls: seq<string>)
    requires NoNewline(ls)
    ensures Lines(JoinCrlf(ls)) == ls
  {
    if ls != [] {
      var l := ls[0];
      var rest := JoinCrlf(ls[1..]);
      var s := JoinCrlf(ls);
      assert s == (l + "\r") + ("\n" + rest);
      assert '\n' !in l + "\r";
      NewlineAfter(l + "\r", "\n" + rest);
      assert NewlineAt(s) == |l| + 1;
      assert s[..|l| + 1] == l + "\r";
      assert (l + "\r")[..|l|] == l;
      assert s[|l| + 2..] == rest;
      assert NoNewline(ls[1..]);
      LinesOfJoin(ls[1..]);
    }
  }

  /* ---------- the tokenizer loop ---------- */

  /** What the loop collects: the bulk-string contents, or a `$` line with nothing after it. */
  datatype Tokens = Parts(parts: seq<string>) | MalformedBulk

  function Prepend(ps: seq<string>, t: Tokens): Tokens
  {
    match t
    case Parts(qs) => Parts(ps + qs)
    case MalformedBulk => MalformedBulk
  }

  /**
   * The loop from line `i` on: a line starting with '$' takes the next line
   * verbatim as a part (both are consumed), or fails when it is the last
   * line; any other line is skipped.
   */
  function TokensFrom(lines: seq<string>, i: nat): Tokens
    decreases |lines| - i
  {
    if i >= |lines| then Parts([])
    else if StartsWith(lines[i], '$') then
      if i + 1 >= |lines| then MalformedBulk
      else Prepend([lines[i + 1]], TokensFrom(lines, i + 2))
    else TokensFrom(lines, i + 1)
  }

  /** The `while` loop of `parse` over the lines after the first, collecting the parts. */
  method Tokenize(lines: seq<string>) returns (r: Tokens)
    ensures r == TokensFrom(lines, 1)
  {
    var parts: seq<string> := [];
    var i := 1;
    while i < |lines|
      invariant 1 <= i
      invariant TokensFrom(lines, 1) == Prepend(parts, TokensFrom(lines, i))
      decreases |lines| - i
    {
      if StartsWith(lines[i], '$') {
        if i + 1 >= |lines| {
          return MalformedBulk;
        }
        parts := parts + [lines[i + 1]];
        i := i + 2;
      } else {
        i := i + 1;
      }
    }
    return Parts(parts);
  }

  /** Only the lines from `i` on matter to the loop. */
  lemma {:induction false} TokensFromSuffix(lines: seq<string>, i: nat)
    requires i <= |lines|
    ensures TokensFrom(lines, i) == TokensFrom(lines[i..], 0)
    decreases |lines| - i
  {
    var rest := lines[i..];
    if i < |lines| {
      if StartsWith(lines[i], '$') {
        if i + 1 < |lines| {
          TokensFromSuffix(lines, i + 2);
          TokensFromSuffix(rest, 2);
          assert rest[2..] == lines[i + 2..];
        }
      } else {
        TokensFromSuffix(lines, i + 1);
        TokensFromSuffix(rest, 1);
        assert rest[1..] == lines[i + 1..];
      }
    }
  }

  /** The `$<len>` / content pairs of an array, with any text after each `$`. */
  function BulkLines(headers: seq<string>, parts: seq<string>): (r: seq<string>)
    requires |headers| == |parts|
    ensures |r| == 2 * |parts|
  {
    if parts == [] then []
    else ["$" + headers[0], parts[0]] + BulkLines(headers[1..], parts[1..])
  }

  /** The contents come back in order whatever the declared lengths are: they are never checked. */
  lemma {:induction false} TokensOfBulkLines(headers: seq<string>, parts: seq<string>)
    requires |headers| == |parts|
    ensures TokensFrom(BulkLines(headers, parts), 0) == Parts(parts)
  {
    if parts != [] {
      var ls := BulkLines(headers, parts);
      TokensFromSuffix(ls, 2);
      assert ls[2..] == BulkLines(headers[1..], parts[1..]);
      TokensOfBulkLines(headers[1..], parts[1..]);
      assert [parts[0]] + parts[1..] == parts;
    }
  }

  /** A `$` line left without its content line fails the whole request. */
  lemma {:induction false} DanglingBulk(headers: seq<string>, parts: seq<string>, last: string)
    requires |headers| == |parts|
    ensures TokensFrom(BulkLines(headers, parts) + ["$" + last], 0) == MalformedBulk
  {
    var ls := BulkLines(headers, parts) + ["$" + last];
    if parts != [] {
      TokensFromSuffix(ls, 2);
      assert ls[2..] == BulkLines(headers[1..], parts[1..]) + ["$" + last];
      DanglingBulk(headers[1..], parts[1..], last);
    }
  }

  /** Lines that do not start with '$' are skipped. */
  lemma {:induction false} SkipsOtherLines(junk: seq<string>, lines: seq<string>)
    requires forall i :: 0 <= i < |junk| ==> !StartsWith(junk[i], '$')
    ensures TokensFrom(junk + lines, 0) == TokensFrom(lines, 0)
  {
    if junk == [] {
      assert junk + lines == lines;
    } else {
      assert (junk + lines)[0] == junk[0];
      assert TokensFrom(junk + lines, 0) == TokensFrom(junk + lines, 1);
      TokensFromSuffix(junk + lines, 1);
      assert (junk + lines)[1..] == junk[1..] + lines;
      SkipsOtherLines(junk[1..], lines);
    }
  }

  /* ---------- replies ---------- */

  /**
   * `to_uppercase` as far as the match on "SET", "GET" and "PING" can see:
   * ASCII letters, and the two non-ASCII letters whose uppercase is one of
   * their letters (long s, dotless i). Other characters are left unchanged,
   * which turns no name into one of the three.
   */
  function UpperChar(c: char): char
  {
    if 'a' <= c <= 'z' then (c as int - 32) as char
    else if c == '\U{017F}' then 'S'
    else if c == '\U{0131}' then 'I'
    else c
  }

  function Upper(s: string): (r: string)
    ensures |r| == |s|
  {
    seq(|s|, i requires 0 <= i < |s| => UpperChar(s[i]))
  }

  /** `String::len`: the number of bytes of the UTF-8 encoding. */
  function Utf8Len(s: string): (n: nat)
    ensures |s| <= n <= 4 * |s|
  {
    if s == [] then 0
    else
      var c := s[0] as int;
      (if c < 0x80 then 1 else if c < 0x800 then 2 else if c < 0x10000 then 3 else 4) + Utf8Len(s[1..])
  }

  /** `format!("${}\r\n{}\r\n", v.len(), v)`. */
  function BulkString(text: string): string
  {
    "$" + NatDigits(Utf8Len(text)) + "\r\n" + text + "\r\n"
  }

  /** A client splitting a bulk-string reply into lines gets the `$<len>` header and the text back. */
  lemma LinesOfBulkString(text: string)
    requires '\n' !in text
    ensures Lines(BulkString(text)) == ["$" + NatDigits(Utf8Len(text)), text]
  {
    var digits := NatDigits(Utf8Len(text));
    var header := "$" + digits;
    forall i | 0 <= i < |header|
      ensures header[i] != '\n'
    {
      if i > 0 {
        assert header[i] == digits[i - 1] && IsDigit(digits[i - 1]);
      }
    }
    assert [header, text][1..] == [text] && [text][1..] == [];
    assert JoinCrlf([text]) == text + "\r\n" + "";
    assert JoinCrlf([header, text]) == header + "\r\n" + JoinCrlf([text]);
    assert BulkString(text) == JoinCrlf([header, text]);
    LinesOfJoin([header, text]);
  }

  /** `value.parse::<i64>().is_ok() || !value.contains('\0')`. */
  predicate ValueAccepted(value: string)
  {
    ParseI64(value).Some? || '\0' !in value
  }

  /** The integer test never decides: a value is accepted exactly when it holds no NUL. */
  lemma ValueAcceptedIff(value: string)
    ensures ValueAccepted(value) <==> '\0' !in value
  {
    if ParseI64(value).Some? {
      ParsedHasNoNul(value);
    }
  }

  /** The match on the uppercased command name, with the cache as a value. */
  function Dispatch(c: CacheView, capacity: nat, parts: seq<string>): (string, CacheView)
    requires Inv(c, capacity) && parts != []
  {
    var name := Upper(parts[0]);
    if name == "SET" then
      if |parts| != 3 then (ErrSetArity, c)
      else if ValueAccepted(parts[2]) then (Ok, SetView(c, parts[1], Str(parts[2]), capacity))
      else (ErrValue, c)
    else if name == "GET" then
      if |parts| != 2 then (ErrGetArity, c)
      else
        var (r, c') := GetView(c, parts[1]);
        match r
        case Some(v) => (BulkString(ToString(v)), c')
        case None => (NullBulk, c')
    else if name == "PING" then (Pong, c)
    else (ErrUnknown, c)
  }

  /** `Command::parse` on a cache state: the reply and the cache afterwards. */
  function Respond(c: CacheView, capacity: nat, cmd: string): (string, CacheView)
    requires Inv(c, capacity)
  {
    var lines := Lines(cmd);
    if lines == [] || !StartsWith(lines[0], '*') then (ErrInvalid, c)
    else
      match TokensFrom(lines, 1)
      case MalformedBulk => (ErrMalformedBulk, c)
      case Parts(parts) => if parts == [] then (ErrEmpty, c) else Dispatch(c, capacity, parts)
  }

  /** The RESP encoding of a request: `*<n>`, then `$<byte length>` and the content for each part. */
  function Encode(parts: seq<string>): string
  {
    JoinCrlf(["*" + NatDigits(|parts|)] + BulkLines(seq(|parts|, i requires 0 <= i < |parts| => NatDigits(Utf8Len(parts[i]))), parts))
  }

  /** Every dispatched command keeps the cache invariant (capacity at least one). */
  lemma DispatchKeepsInv(c: CacheView, capacity: nat, parts: seq<string>)
    requires Inv(c, capacity) && capacity >= 1 && parts != []
    ensures Inv(Dispatch(c, capacity, parts).1, capacity)
  {
    var name := Upper(parts[0]);
    if name == "SET" && |parts| == 3 {
      SetKeepsInv(c, parts[1], Str(parts[2]), capacity);
    } else if name == "GET" && |parts| == 2 {
      GetKeepsInv(c, parts[1], capacity);
    }
  }

  /** Every request keeps the cache invariant (capacity at least one). */
  lemma RespondKeepsInv(c: CacheView, capacity: nat, cmd: string)
    requires Inv(c, capacity) && capacity >= 1
    ensures Inv(Respond(c, capacity, cmd).1, capacity)
  {
    var lines := Lines(cmd);
    if lines != [] && StartsWith(lines[0], '*') && TokensFrom(lines, 1).Parts? && TokensFrom(lines, 1).parts != [] {
      DispatchKeepsInv(c, capacity, TokensFrom(lines, 1).parts);
    }
  }

  /** A bulk-string reply is neither an error, nor the null bulk string, nor PONG. */
  lemma BulkStringIsData(text: string)
    ensures var r := BulkString(text);
      r[0] == '$' && r != NullBulk && r != Pong
  {
    var r := BulkString(text);
    assert r[1] == NatDigits(Utf8Len(text))[0];
  }

  /** A dispatched command that answers with an error, a GET miss or PONG leaves the cache as it was. */
  lemma DispatchKeepsCache(c: CacheView, capacity: nat, parts: seq<string>)
    requires Inv(c, capacity) && parts != []
    ensures var (reply, c') := Dispatch(c, capacity, parts);
      (reply[0] == '-' || reply == NullBulk || reply == Pong) ==> c' == c
  {
    var name := Upper(parts[0]);
    if name == "SET" && |parts| == 3 && ValueAccepted(parts[2]) {
      assert Ok[0] == '+' && Ok != NullBulk && Ok != Pong;
    } else if name == "GET" && |parts| == 2 {
      var (r, c') := GetView(c, parts[1]);
      if r.Some? {
        BulkStringIsData(ToString(r.value));
      } else {
        GetFacts(c, parts[1], capacity);
      }
    }
  }

  /** An error reply, a GET miss and PONG leave the cache exactly as it was. */
  lemma RepliesThatKeepCache(c: CacheView, capacity: nat, cmd: string)
    requires Inv(c, capacity)
    ensures var (reply, c') := Respond(c, capacity, cmd);
      (reply[0] == '-' || reply == NullBulk || reply == Pong) ==> c' == c
  {
    var lines := Lines(cmd);
    if lines != [] && StartsWith(lines[0], '*') && TokensFrom(lines, 1).Parts? && TokensFrom(lines, 1).parts != [] {
      DispatchKeepsCache(c, capacity, TokensFrom(lines, 1).parts);
    }
  }

  /** A request's lines, as the handler splits them. */
  lemma {:induction false} LinesOfEncode(parts: seq<string>)
    requires NoNewline(parts)
    ensures var lens := seq(|parts|, i requires 0 <= i < |parts| => NatDigits(Utf8Len(parts[i])));
      Lines(Encode(parts)) == ["*" + NatDigits(|parts|)] + BulkLines(lens, parts)
  {
    var lens := seq(|parts|, i requires 0 <= i < |parts| => NatDigits(Utf8Len(parts[i])));
    var ls := ["*" + NatDigits(|parts|)] + BulkLines(lens, parts);
    forall i | 0 <= i < |lens|
      ensures '\n' !in lens[i]
    {
      assert AllDigits(lens[i]);
    }
    BulkLinesNoNewline(lens, parts);
    assert "*" + NatDigits(|parts|) == ['*'] + NatDigits(|parts|);
    assert NoNewline(ls);
    LinesOfJoin(ls);
  }

  lemma {:induction false} BulkLinesNoNewline(headers: seq<string>, parts: seq<string>)
    requires |headers| == |parts| && NoNewline(headers) && NoNewline(parts)
    ensures NoNewline(BulkLines(headers, parts))
  {
    if parts != [] {
      BulkLinesNoNewline(headers[1..], parts[1..]);
      var r := BulkLines(headers, parts);
      var tail := BulkLines(headers[1..], parts[1..]);
      assert "$" + headers[0] == ['$'] + headers[0];
      forall i | 0 <= i < |r|
        ensures '\n' !in r[i]
      {
        if i >= 2 {
          assert r[i] == tail[i - 2];
        }
      }
    }
  }

  /** The parts of an encoded request come back from the tokenizer. */
  lemma {:induction false} TokensOfEncode(parts: seq<string>)
    requires NoNewline(parts)
    ensures var lines := Lines(Encode(parts));
      lines != [] && StartsWith(lines[0], '*') && TokensFrom(lines, 1) == Parts(parts)
  {
    var lens := seq(|parts|, i requires 0 <= i < |parts| => NatDigits(Utf8Len(parts[i])));
    var lines := Lines(Encode(parts));
    LinesOfEncode(parts);
    TokensFromSuffix(lines, 1);
    assert lines[1..] == BulkLines(lens, parts);
    TokensOfBulkLines(lens, parts);
  }

  /** A well-formed request reaches the dispatch on its parts. */
  lemma EncodedRequest(c: CacheView, capacity: nat, parts: seq<string>)
    requires Inv(c, capacity) && parts != [] && NoNewline(parts)
    ensures Respond(c, capacity, Encode(parts)) == Dispatch(c, capacity, parts)
  {
    TokensOfEncode(parts);
  }

  /**
   * An encoded SET, in any letter case, of a value without NUL answers +OK and
   * performs the cache's `set`; a value holding a NUL is refused and the cache
   * is left alone.
   */
  lemma EncodedSet(c: CacheView, capacity: nat, name: string, key: string, value: string)
    requires Inv(c, capacity) && Upper(name) == "SET" && NoNewline([name, key, value])
    ensures '\0' !in value ==> Respond(c, capacity, Encode([name, key, value])) == (Ok, SetView(c, key, Str(value), capacity))
    ensures '\0' in value ==> Respond(c, capacity, Encode([name, key, value])) == (ErrValue, c)
  {
    EncodedRequest(c, capacity, [name, key, value]);
    ValueAcceptedIff(value);
  }

  /** An encoded PING answers +PONG whatever follows the name. */
  lemma EncodedPing(c: CacheView, capacity: nat, name: string, args: seq<string>)
    requires Inv(c, capacity) && Upper(name) == "PING" && NoNewline([name] + args)
    ensures Respond(c, capacity, Encode([name] + args)) == (Pong, c)
  {
    EncodedRequest(c, capacity, [name] + args);
  }

  /** An encoded GET answers the looked-up value as a bulk string, or the null bulk string on a miss. */
  lemma EncodedGet(c: CacheView, capacity: nat, name: string, key: string)
    requires Inv(c, capacity) && Upper(name) == "GET" && NoNewline([name, key])
    ensures var (r, c') := GetView(c, key);
      Respond(c, capacity, Encode([name, key])) ==
        (if r.Some? then BulkString(ToString(r.value)) else NullBulk, c')
  {
    EncodedRequest(c, capacity, [name, key]);
  }

  /** A request whose first character is not '*' is refused as invalid, and the cache is untouched. */
  lemma {:induction false} NotArrayInvalid(c: CacheView, capacity: nat, cmd: string)
    requires Inv(c, capacity) && (cmd == [] || cmd[0] != '*')
    ensures Respond(c, capacity, cmd) == (ErrInvalid, c)
  {
    var lines := Lines(cmd);
    if cmd != [] {
      var n := NewlineAt(cmd);
      if n < |cmd| {
        var line := cmd[..n];
        var first := if |line| > 0 && line[|line| - 1] == '\r' then line[..|line| - 1] else line;
        assert lines[0] == first;
        assert |first| > 0 ==> first[0] == cmd[0];
      }
    }
  }

  /** An encoded array with no elements is the empty command. */
  lemma EncodedEmpty(c: CacheView, capacity: nat)
    requires Inv(c, capacity)
    ensures Respond(c, capacity, Encode([])) == (ErrEmpty, c)
  {
    LinesOfEncode([]);
  }

  /**
   * A request whose first line starts with '*' and none of whose other lines
   * starts with '$' collects no parts: it is the empty command.
   */
  lemma NoBulkIsEmpty(c: CacheView, capacity: nat, cmd: string)
    requires Inv(c, capacity)
    requires Lines(cmd) != [] && StartsWith(Lines(cmd)[0], '*')
    requires forall i :: 1 <= i < |Lines(cmd)| ==> !StartsWith(Lines(cmd)[i], '$')
    ensures Respond(c, capacity, cmd) == (ErrEmpty, c)
  {
    var lines := Lines(cmd);
    var junk := lines[1..];
    TokensFromSuffix(lines, 1);
    assert forall i :: 0 <= i < |junk| ==> junk[i] == lines[i + 1];
    SkipsOtherLines(junk, []);
    assert junk + [] == junk;
  }

  /** SET with other than two arguments, GET with other than one, and an unknown name are refused. */
  lemma EncodedRefusals(c: CacheView, capacity: nat, parts: seq<string>)
    requires Inv(c, capacity) && parts != [] && NoNewline(parts)
    ensures Upper(parts[0]) == "SET" && |parts| != 3 ==> Respond(c, capacity, Encode(parts)) == (ErrSetArity, c)
    ensures Upper(parts[0]) == "GET" && |parts| != 2 ==> Respond(c, capacity, Encode(parts)) == (ErrGetArity, c)
    ensures Upper(parts[0]) !in {"SET", "GET", "PING"} ==> Respond(c, capacity, Encode(parts)) == (ErrUnknown, c)
  {
    EncodedRequest(c, capacity, parts);
  }

  /** The upper-case names are their own upper case. */
  lemma UpperNames()
    ensures Upper("SET") == "SET" && Upper("GET") == "GET"
  {
  }

  lemma RequestsHaveNoNewline(key: string, value: string)
    requires NoNewline([key, value])
    ensures NoNewline(["SET", key, value]) && NoNewline(["GET", key])
  {
    assert [key, value][0] == key && [key, value][1] == value;
  }

  /** After an encoded SET of `key`, an encoded GET of `key` answers with the value as a bulk string. */
  lemma SetThenGet(c: CacheView, capacity: nat, key: string, value: string)
    requires Inv(c, capacity) && capacity >= 1
    requires NoNewline([key, value]) && '\0' !in value
    ensures var c1 := Respond(c, capacity, Encode(["SET", key, value])).1;
      Inv(c1, capacity) && Respond(c1, capacity, Encode(["GET", key])).0 == BulkString(value)
  {
    UpperNames();
    RequestsHaveNoNewline(key, value);
    EncodedSet(c, capacity, "SET", key, value);
    var c1 := SetView(c, key, Str(value), capacity);
    GetAfterSet(c, key, Str(value), capacity);
    EncodedGet(c1, capacity, "GET", key);
  }

  /** `struct Command`: the handler around the shared cache. */
  class Command {
    const lru: Lru

    /** `Command::new`. */
    constructor (lru: Lru)
      ensures this.lru == lru
    {
      this.lru := lru;
    }

    /** `Command::parse`: answers one request, updating the cache on SET and on a GET hit. */
    method Parse(cmd: string) returns (reply: string)
      requires lru.Valid()
      modifies lru, lru.data
      ensures lru.Valid()
      ensures (reply, lru.View()) == Respond(old(lru.View()), lru.capacity, cmd)
    {
      var lines := Lines(cmd);
      if |lines| == 0 || !StartsWith(lines[0], '*') {
        return ErrInvalid;
      }
      var tokens := Tokenize(lines);
      if tokens.MalformedBulk? {
        return ErrMalformedBulk;
      }
      var parts := tokens.parts;
      if |parts| == 0 {
        return ErrEmpty;
      }
      var name := Upper(parts[0]);
      if name == "SET" {
        if |parts| != 3 {
          return ErrSetArity;
        }
        var key := parts[1];
        var value := parts[2];
        if ParseI64(value).Some? || '\0' !in value {
          lru.Set(key, Str(value));
          reply := Ok;
        } else {
          reply := ErrValue;
        }
      } else if name == "GET" {
        if |parts| != 2 {
          return ErrGetArity;
        }
        var r := lru.Get(parts[1]);
        match r {
          case Some(v) => reply := BulkString(ToString(v));
          case None => reply := NullBulk;
        }
      } else if name == "PING" {
        reply := Pong;
      } else {
        reply := ErrUnknown;
      }
    }
  }
}
