/** JSON pointers, evaluated as in section 4 of RFC 6901. */
module JsonPointer {
  import opened Common
  import opened Json

  function Split(s: string): (parts: seq<string>)
    ensures |parts| > 0
  {
    if s == "" then [""]
    else if s[0] == '/' then [""] + Split(s[1..])
    else
      var rest := Split(s[1..]);
      [[s[0]] + rest[0]] + rest[1..]
  }

  function ReplaceEscape(s: string, digit: char, plain: char): string {
    if |s| >= 2 && s[0] == '~' && s[1] == digit then [plain] + ReplaceEscape(s[2..], digit, plain)
    else if s == "" then ""
    else [s[0]] + ReplaceEscape(s[1..], digit, plain)
  }

  function Unescape(token: string): string {
    ReplaceEscape(ReplaceEscape(token, '1', '/'), '0', '~')
  }

  function Decimal(digits: string): (n: Option<nat>) {
    if digits == "" then Some(0)
    else
      var last := digits[|digits| - 1];
      match Decimal(digits[..|digits| - 1])
      case Some(high) => if '0' <= last <= '9' then Some(10 * high + (last as int - '0' as int)) else None
      case None => None
  }

  function ParseIndex(token: string): Option<nat> {
    if token == "" || (token[0] == '0' && |token| != 1) then None else Decimal(token)
  }

  function Resolve(v: Value, token: string): Option<Value> {
    match v
    case Object(members) => Find(members, token)
    case Array(items) =>
      (match ParseIndex(token)
       case Some(i) => if i < |items| then Some(items[i]) else None
       case None => None)
    case _ => None
  }

  function Walk(v: Value, tokens: seq<string>): Option<Value>
    decreases |tokens|
  {
    if tokens == [] then Some(v)
    else
      match Resolve(v, Unescape(tokens[0]))
      case Some(part) => Walk(part, tokens[1..])
      case None => None
  }

  function Pointer(root: Value, pointer: string): Option<Value> {
    if pointer == "" then Some(root)
    else if pointer[0] != '/' then None
    else Walk(root, Split(pointer[1..]))
  }

  lemma {:induction false} WalkStaysInside(v: Value, tokens: seq<string>)
    requires Walk(v, tokens).Some?
    ensures Strings(Walk(v, tokens).value) <= Strings(v)
    decreases |tokens|
  {
    if tokens != [] {
      var token := Unescape(tokens[0]);
      var part := Resolve(v, token).value;
      if v.Object? {
        FoundIsPart(v.members, token);
      } else {
        ItemIsPart(v.items, ParseIndex(token).value);
      }
      WalkStaysInside(part, tokens[1..]);
    }
  }

  // ----- what a pointer finds -----

  /** Section 3 of RFC 6901: the text of one reference token. */
  function Escape(token: string): string {
    if token == "" then ""
    else (if token[0] == '~' then "~0" else if token[0] == '/' then "~1" else [token[0]]) + Escape(token[1..])
  }

  /** The pointer that spells out a path of keys and indices. */
  function PointerTo(tokens: seq<string>): string {
    if tokens == [] then "" else "/" + (Escape(tokens[0]) + PointerTo(tokens[1..]))
  }

  /** Following the path itself, without any text in between. */
  function Follow(v: Value, tokens: seq<string>): Option<Value>
    decreases |tokens|
  {
    if tokens == [] then Some(v)
    else
      match Resolve(v, tokens[0])
      case Some(part) => Follow(part, tokens[1..])
      case None => None
  }

  function EscapeTilde(token: string): string {
    if token == "" then "" else (if token[0] == '~' then "~0" else [token[0]]) + EscapeTilde(token[1..])
  }

  lemma ReplaceAtFront(rest: string)
    ensures ReplaceEscape("~1" + rest, '1', '/') == "/" + ReplaceEscape(rest, '1', '/')
    ensures ReplaceEscape("~0" + rest, '1', '/') == "~0" + ReplaceEscape(rest, '1', '/')
    ensures forall c :: c != '~' ==> ReplaceEscape([c] + rest, '1', '/') == [c] + ReplaceEscape(rest, '1', '/')
  {
    assert ("~1" + rest)[2..] == rest && ("~0" + rest)[1..] == "0" + rest && ("0" + rest)[1..] == rest;
  }

  lemma {:induction false} SlashesComeBack(token: string)
    ensures ReplaceEscape(Escape(token), '1', '/') == EscapeTilde(token)
  {
    if token != "" {
      SlashesComeBack(token[1..]);
      ReplaceAtFront(Escape(token[1..]));
    }
  }

  lemma {:induction false} TildesComeBack(token: string)
    ensures ReplaceEscape(EscapeTilde(token), '0', '~') == token
  {
    if token != "" {
      TildesComeBack(token[1..]);
      if token[0] == '~' {
        assert EscapeTilde(token)[2..] == EscapeTilde(token[1..]);
      } else {
        assert EscapeTilde(token)[1..] == EscapeTilde(token[1..]);
      }
    }
  }

  /** Unescaping undoes escaping; this depends on undoing the slashes first. */
  lemma UnescapeUndoesEscape(token: string)
    ensures Unescape(Escape(token)) == token
  {
    SlashesComeBack(token);
    TildesComeBack(token);
  }

  lemma {:induction false} EscapedHasNoSlash(token: string)
    ensures '/' !in Escape(token)
  {
    if token != "" {
      EscapedHasNoSlash(token[1..]);
    }
  }

  lemma {:induction false} SplitAtSlash(first: string, rest: string)
    requires '/' !in first
    ensures Split(first + "/" + rest) == [first] + Split(rest)
    ensures Split(first) == [first]
  {
    if first == "" {
      assert ("" + "/" + rest)[1..] == rest;
    } else {
      SplitAtSlash(first[1..], rest);
      var whole := first + "/" + rest;
      assert whole[1..] == first[1..] + "/" + rest && whole[0] == first[0] && whole[0] in first;
      assert first == [first[0]] + first[1..];
      assert Split(whole[1..])[1..] == Split(rest);
    }
  }

  function EscapedAll(tokens: seq<string>): seq<string> {
    if tokens == [] then [] else [Escape(tokens[0])] + EscapedAll(tokens[1..])
  }

  lemma SplitBefore(first: string, others: string)
    requires '/' !in first && (others == "" || others[0] == '/')
    ensures Split(first + others) == if others == "" then [first] else [first] + Split(others[1..])
  {
    if others == "" {
      assert first + others == first;
      SplitAtSlash(first, "");
    } else {
      assert first + others == first + "/" + others[1..];
      SplitAtSlash(first, others[1..]);
    }
  }

  lemma PointerParts(tokens: seq<string>)
    requires tokens != []
    ensures PointerTo(tokens) != "" && PointerTo(tokens)[0] == '/'
    ensures PointerTo(tokens)[1..] == Escape(tokens[0]) + PointerTo(tokens[1..])
  {
    AfterSlash(Escape(tokens[0]) + PointerTo(tokens[1..]));
  }

  lemma AfterSlash(s: string)
    ensures ("/" + s)[0] == '/' && ("/" + s)[1..] == s
  {
  }

  lemma {:induction false} SplitFindsTokens(tokens: seq<string>)
    requires tokens != []
    ensures Split(PointerTo(tokens)[1..]) == EscapedAll(tokens)
  {
    PointerParts(tokens);
    EscapedHasNoSlash(tokens[0]);
    if |tokens| > 1 {
      PointerParts(tokens[1..]);
      SplitFindsTokens(tokens[1..]);
    }
    SplitBefore(Escape(tokens[0]), PointerTo(tokens[1..]));
  }

  lemma {:induction false} WalkFollows(v: Value, tokens: seq<string>)
    ensures Walk(v, EscapedAll(tokens)) == Follow(v, tokens)
    decreases |tokens|
  {
    if tokens != [] {
      UnescapeUndoesEscape(tokens[0]);
      assert EscapedAll(tokens)[1..] == EscapedAll(tokens[1..]);
      if Resolve(v, tokens[0]).Some? {
        WalkFollows(Resolve(v, tokens[0]).value, tokens[1..]);
      }
    }
  }

  /** The pointer written for a path finds what the path leads to, whatever characters its keys have. */
  lemma PointerFindsPath(root: Value, tokens: seq<string>)
    ensures Pointer(root, PointerTo(tokens)) == Follow(root, tokens)
  {
    if tokens != [] {
      SplitFindsTokens(tokens);
      WalkFollows(root, tokens);
    }
  }

  // ----- pointers in URI fragments, section 6 of RFC 6901 -----

  /** The characters that section 3.5 of RFC 3986 allows in a fragment as they are. */
  predicate Unencoded(c: char) {
    'a' <= c <= 'z' || 'A' <= c <= 'Z' || '0' <= c <= '9' || c in "-._~!$&'()*+,;=:@/?"
  }

  /** `encode` yields the percent-encoded bytes of a character. */
  function PercentEncode(s: string, encode: char -> string): string {
    if s == "" then ""
    else (if Unencoded(s[0]) then [s[0]] else encode(s[0])) + PercentEncode(s[1..], encode)
  }

  /** Encoded bytes are written with percent signs and hexadecimal digits only. */
  ghost predicate PlainCodes(encode: char -> string) {
    forall c :: '/' !in encode(c) && '~' !in encode(c)
  }

  function EncodedKeys(tokens: seq<string>, encode: char -> string): seq<string> {
    if tokens == [] then [] else [PercentEncode(tokens[0], encode)] + EncodedKeys(tokens[1..], encode)
  }

  lemma {:induction false} EncodeJoins(s: string, t: string, encode: char -> string)
    ensures PercentEncode(s + t, encode) == PercentEncode(s, encode) + PercentEncode(t, encode)
  {
    if s == "" {
      assert s + t == t;
    } else {
      assert (s + t)[1..] == s[1..] + t;
      EncodeJoins(s[1..], t, encode);
    }
  }

  lemma {:induction false} EscapeJoins(s: string, t: string)
    ensures Escape(s + t) == Escape(s) + Escape(t)
  {
    if s == "" {
      assert s + t == t;
    } else {
      assert (s + t)[1..] == s[1..] + t;
      EscapeJoins(s[1..], t);
    }
  }

  lemma {:induction false} EscapeLeaves(s: string)
    requires '/' !in s && '~' !in s
    ensures Escape(s) == s
  {
    if s != "" {
      EscapeLeaves(s[1..]);
      assert s == [s[0]] + s[1..];
    }
  }

  lemma {:induction false} EncodeEscaped(token: string, encode: char -> string)
    requires PlainCodes(encode)
    ensures PercentEncode(Escape(token), encode) == Escape(PercentEncode(token, encode))
  {
    if token != "" {
      var first := if token[0] == '~' then "~0" else if token[0] == '/' then "~1" else [token[0]];
      var code := if Unencoded(token[0]) then [token[0]] else encode(token[0]);
      EncodeEscaped(token[1..], encode);
      EncodeJoins(first, Escape(token[1..]), encode);
      EscapeJoins(code, PercentEncode(token[1..], encode));
      EncodeOne(token[0], encode);
    }
  }

  lemma EncodeOne(c: char, encode: char -> string)
    requires PlainCodes(encode)
    ensures var first := if c == '~' then "~0" else if c == '/' then "~1" else [c];
            PercentEncode(first, encode) == Escape(if Unencoded(c) then [c] else encode(c))
  {
    if !Unencoded(c) {
      EscapeLeaves(encode(c));
      assert PercentEncode([c], encode) == encode(c) + PercentEncode([c][1..], encode);
    } else {
      assert Escape([c][1..]) == "" && PercentEncode([c][1..], encode) == "";
      assert "~0"[1..] == "0" && "~1"[1..] == "1";
      assert PercentEncode("0", encode) == "0" && PercentEncode("1", encode) == "1";
    }
  }

  lemma {:induction false} EncodedPointer(tokens: seq<string>, encode: char -> string)
    requires PlainCodes(encode)
    ensures PercentEncode(PointerTo(tokens), encode) == PointerTo(EncodedKeys(tokens, encode))
  {
    if tokens != [] {
      EncodedPointer(tokens[1..], encode);
      EncodeJoins("/", Escape(tokens[0]) + PointerTo(tokens[1..]), encode);
      EncodeJoins(Escape(tokens[0]), PointerTo(tokens[1..]), encode);
      EncodeEscaped(tokens[0], encode);
      assert PercentEncode("/", encode) == "/";
    }
  }

  /** A percent-encoded reference is taken as it stands: it finds what the path with the encoded keys leads to. */
  lemma EncodedPointerFindsEncodedKeys(root: Value, tokens: seq<string>, encode: char -> string)
    requires PlainCodes(encode)
    ensures Pointer(root, PercentEncode(PointerTo(tokens), encode)) == Follow(root, EncodedKeys(tokens, encode))
  {
    EncodedPointer(tokens, encode);
    PointerFindsPath(root, EncodedKeys(tokens, encode));
  }

  predicate AllUnencoded(tokens: seq<string>) {
    forall t, c :: t in tokens && c in t ==> Unencoded(c)
  }

  /** A percent-encoded character takes more than one character. */
  ghost predicate LongCodes(encode: char -> string) {
    forall c :: !Unencoded(c) ==> |encode(c)| > 1
  }

  /** Encoding changes a text exactly when it has something to encode, and then makes it longer. */
  lemma {:induction false} EncodingLengthens(s: string, encode: char -> string)
    requires LongCodes(encode)
    ensures if forall c :: c in s ==> Unencoded(c) then PercentEncode(s, encode) == s
            else |PercentEncode(s, encode)| > |s|
  {
    if s != "" {
      EncodingLengthens(s[1..], encode);
      assert s == [s[0]] + s[1..];
    }
  }

  lemma {:induction false} SameKeysExactlyWhen(tokens: seq<string>, encode: char -> string)
    requires LongCodes(encode)
    ensures EncodedKeys(tokens, encode) == tokens <==> AllUnencoded(tokens)
  {
    if tokens != [] {
      EncodingLengthens(tokens[0], encode);
      SameKeysExactlyWhen(tokens[1..], encode);
      assert tokens == [tokens[0]] + tokens[1..];
    }
  }

  lemma {:induction false} AsManyKeys(tokens: seq<string>, encode: char -> string)
    ensures |EncodedKeys(tokens, encode)| == |tokens|
  {
    if tokens != [] {
      AsManyKeys(tokens[1..], encode);
    }
  }

  /** A document in which this path leads somewhere and no other path of its length does. */
  function Chain(tokens: seq<string>): Value {
    if tokens == [] then Null else Object([Member(tokens[0], Chain(tokens[1..]))])
  }

  lemma OnlyMember(key: string, value: Value, token: string)
    ensures Resolve(Object([Member(key, value)]), token) == if token == key then Some(value) else None
  {
    var members := [Member(key, value)];
    assert Find(members[1..], token) == None;
  }

  lemma {:induction false} ChainHasOnePath(tokens: seq<string>, keys: seq<string>)
    requires |keys| == |tokens|
    ensures Follow(Chain(tokens), keys) == if keys == tokens then Some(Null) else None
  {
    if tokens != [] {
      OnlyMember(tokens[0], Chain(tokens[1..]), keys[0]);
      ChainHasOnePath(tokens[1..], keys[1..]);
      assert tokens == [tokens[0]] + tokens[1..] && keys == [keys[0]] + keys[1..];
    }
  }

  /** The encoded reference for a path finds in this document what the path leads to. */
  ghost predicate FoundEncoded(root: Value, tokens: seq<string>, encode: char -> string) {
    Pointer(root, PercentEncode(PointerTo(tokens), encode)) == Follow(root, tokens)
  }

  /** A percent-encoded reference finds its target in every document exactly when no key on its path has a character
      that a fragment must encode. */
  lemma EncodedPointerFindsPathExactlyWhen(tokens: seq<string>, encode: char -> string)
    requires PlainCodes(encode) && LongCodes(encode)
    ensures (forall root :: FoundEncoded(root, tokens, encode)) <==> AllUnencoded(tokens)
  {
    var keys := EncodedKeys(tokens, encode);
    SameKeysExactlyWhen(tokens, encode);
    forall root ensures FoundEncoded(root, tokens, encode) <==> Follow(root, keys) == Follow(root, tokens) {
      EncodedPointerFindsEncodedKeys(root, tokens, encode);
    }
    if !AllUnencoded(tokens) {
      AsManyKeys(tokens, encode);
      ChainHasOnePath(tokens, keys);
      ChainHasOnePath(tokens, tokens);
      assert !FoundEncoded(Chain(tokens), tokens, encode);
    }
  }

  lemma SpaceIsEncoded(encode: char -> string)
    requires encode(' ') == "%20"
    ensures PercentEncode("a b", encode) == "a%20b"
  {
    EncodeJoins("a", " b", encode);
    EncodeJoins(" ", "b", encode);
    assert "a" + " b" == "a b" && " " + "b" == " b";
    assert PercentEncode("a", encode) == "a" && PercentEncode("b", encode) == "b"
           && PercentEncode(" ", encode) == "%20";
  }

  /** One that misses: a space in a key, written as %20 in the reference. */
  lemma EncodedSpaceMisses(encode: char -> string)
    requires PlainCodes(encode) && encode(' ') == "%20"
    ensures var root := Object([Member("a b", Null)]);
            Follow(root, ["a b"]) == Some(Null) && Pointer(root, PercentEncode(PointerTo(["a b"]), encode)) == None
  {
    var root := Object([Member("a b", Null)]);
    EncodedPointerFindsEncodedKeys(root, ["a b"], encode);
    SpaceIsEncoded(encode);
    assert EncodedKeys(["a b"], encode) == ["a%20b"];
    OnlyMember("a b", Null, "a%20b");
    OnlyMember("a b", Null, "a b");
  }

  // ----- indices -----

  function Digit(n: nat): char
    requires n < 10
  {
    '0' + n as char
  }

  function IndexText(n: nat): string {
    if n < 10 then [Digit(n)] else IndexText(n / 10) + [Digit(n % 10)]
  }

  lemma {:induction false} DecimalReadsIndex(n: nat)
    ensures Decimal(IndexText(n)) == Some(n)
    ensures IndexText(n) != "" && (IndexText(n)[0] == '0' ==> n == 0)
  {
    if n < 10 {
      assert IndexText(n)[..0] == "";
    } else {
      DecimalReadsIndex(n / 10);
      var high := IndexText(n / 10);
      assert IndexText(n)[..|high|] == high && IndexText(n)[|high|] == Digit(n % 10);
    }
  }

  /** The decimal text of an index is read back as that index. */
  lemma IndexIsReadBack(n: nat)
    ensures ParseIndex(IndexText(n)) == Some(n)
  {
    DecimalReadsIndex(n);
  }

  lemma {:induction false} DigitsAreRead(token: string, n: nat)
    requires token != "" && Decimal(token) == Some(n) && (token[0] == '0' ==> |token| == 1)
    ensures token == IndexText(n)
    decreases |token|
  {
    var high, last := token[..|token| - 1], token[|token| - 1];
    assert token == high + [last];
    var m := Decimal(high).value;
    assert Digit(last as int - '0' as int) == last;
    if high == "" {
      assert n < 10;
    } else {
      DigitsAreRead(high, m);
      LeadingDigit(high, m);
      assert n / 10 == m && n % 10 == last as int - '0' as int;
    }
  }

  lemma LeadingDigit(token: string, n: nat)
    requires token != "" && token[0] != '0' && token == IndexText(n)
    ensures n > 0
  {
  }

  /** A token is an index exactly when it is its decimal text: no sign, no leading zero, nothing else. */
  lemma IndexExactlyWhen(token: string, n: nat)
    ensures ParseIndex(token) == Some(n) <==> token == IndexText(n)
  {
    IndexIsReadBack(n);
    if ParseIndex(token) == Some(n) {
      DigitsAreRead(token, n);
    }
  }

  /** One step of a path: the item at the index that the token spells, or the first member with that key. */
  lemma ResolveExactlyWhen(v: Value, token: string, part: Value)
    ensures v.Array? ==>
              (Resolve(v, token) == Some(part) <==>
                 exists n: nat :: n < |v.items| && token == IndexText(n) && v.items[n] == part)
    ensures v.Object? ==>
              (Resolve(v, token) == Some(part) <==>
                 exists i :: 0 <= i < |v.members| && v.members[i] == Member(token, part)
                   && forall j :: 0 <= j < i ==> v.members[j].key != token)
    ensures Resolve(v, token) == Some(part) ==> v.Array? || v.Object?
  {
    if v.Array? {
      if ParseIndex(token).Some? {
        IndexExactlyWhen(token, ParseIndex(token).value);
      }
      forall n: nat | token == IndexText(n) ensures ParseIndex(token) == Some(n) {
        IndexExactlyWhen(token, n);
      }
    } else if v.Object? {
      FindExactlyWhen(v.members, token, part);
    }
  }

  // ----- the examples of the standard -----

  /** Part of the document in section 5 of RFC 6901. */
  const STANDARD := Object([
    Member("foo", Array([String("bar"), String("baz")])), Member("", Number("0")), Member("a/b", Number("1")),
    Member("m~n", Number("8"))])

  lemma StandardTexts()
    ensures PointerTo([]) == "" && PointerTo([""]) == "/" && PointerTo(["foo", "1"]) == "/foo/1"
    ensures PointerTo(["a/b"]) == "/a~1b" && PointerTo(["m~n"]) == "/m~0n"
  {
    assert ["foo", "1"][1..] == ["1"];
    assert Escape("foo") == "foo" && Escape("1") == "1" && Escape("") == "";
    assert Escape("a/b") == "a~1b" && Escape("m~n") == "m~0n";
  }

  lemma StandardMembers()
    ensures Follow(STANDARD, [""]) == Some(Number("0")) && Follow(STANDARD, ["a/b"]) == Some(Number("1"))
    ensures Follow(STANDARD, ["m~n"]) == Some(Number("8")) && Follow(STANDARD, ["foo", "1"]) == Some(String("baz"))
  {
    var members := STANDARD.members;
    assert members[1..][0] == members[1] && members[1..][1..][0] == members[2]
           && members[1..][1..][1..][0] == members[3];
    assert ["foo", "1"][1..] == ["1"];
    IndexIsReadBack(1);
    assert IndexText(1) == "1";
  }

  /** The pointers of that section find the values it gives for them. */
  lemma StandardPointers()
    ensures Pointer(STANDARD, "") == Some(STANDARD) && Pointer(STANDARD, "/foo/1") == Some(String("baz"))
    ensures Pointer(STANDARD, "/") == Some(Number("0")) && Pointer(STANDARD, "/a~1b") == Some(Number("1"))
    ensures Pointer(STANDARD, "/m~0n") == Some(Number("8"))
  {
    StandardTexts();
    StandardMembers();
    PointerFindsPath(STANDARD, []);
    PointerFindsPath(STANDARD, [""]);
    PointerFindsPath(STANDARD, ["foo", "1"]);
    PointerFindsPath(STANDARD, ["a/b"]);
    PointerFindsPath(STANDARD, ["m~n"]);
  }
}
