/** The address bar: a one-line text input whose contents are parsed into a
    method and a URL when a request is submitted. */
module AddressBar {
  import opened Messages

  predicate AllSpaces(s: string) {
    forall k :: 0 <= k < |s| ==> s[k] == ' '
  }

  /** Drops the leading spaces (the first half of trimming the cut set " "). */
  function TrimLeft(s: string): (r: string)
    ensures |r| <= |s|
    ensures r == [] || r[0] != ' '
  {
    if s != [] && s[0] == ' ' then TrimLeft(s[1..]) else s
  }

  /** Drops the trailing spaces. */
  function TrimRight(s: string): (r: string)
    ensures |r| <= |s|
    ensures r == [] || r[|r| - 1] != ' '
  {
    if s != [] && s[|s| - 1] == ' ' then TrimRight(s[..|s| - 1]) else s
  }

  /** What TrimLeft drops is spaces, and what it keeps is a suffix. */
  lemma {:induction false} TrimLeftShape(s: string)
    ensures var r := TrimLeft(s); r == s[|s| - |r|..] && AllSpaces(s[..|s| - |r|])
  {
    if s != [] && s[0] == ' ' {
      TrimLeftShape(s[1..]);
      var r := TrimLeft(s);
      assert s[..|s| - |r|] == [s[0]] + s[1..][..|s[1..]| - |r|];
    }
  }

  /** What TrimRight drops is spaces, and what it keeps is a prefix. */
  lemma {:induction false} TrimRightShape(s: string)
    ensures var r := TrimRight(s); r == s[..|r|] && AllSpaces(s[|r|..])
  {
    if s != [] && s[|s| - 1] == ' ' {
      var n := |s| - 1;
      TrimRightShape(s[..n]);
      var r := TrimRight(s);
      assert s[|r|..] == s[..n][|r|..] + [s[n]];
    }
  }

  /** Trims spaces (and only spaces) from both ends. */
  function Trim(s: string): (r: string)
    ensures |r| <= |s|
    ensures r == [] <==> AllSpaces(s)
    ensures r != [] ==> r[0] != ' ' && r[|r| - 1] != ' '
  {
    TrimEnds(s);
    TrimRight(TrimLeft(s))
  }

  lemma {:induction false} TrimEnds(s: string)
    ensures var r := TrimRight(TrimLeft(s));
      (r == [] <==> AllSpaces(s)) && (r != [] ==> r[0] != ' ' && r[|r| - 1] != ' ')
  {
    var left := TrimLeft(s);
    TrimLeftShape(s);
    TrimRightShape(left);
    var r := TrimRight(left);
    if r == [] {
      assert AllSpaces(left[|r|..]);
      assert s == s[..|s| - |left|] + left;
    } else {
      assert r[0] == left[0];
    }
  }

  /** Splits on every single space: consecutive spaces give empty pieces. */
  function Split(s: string): (parts: seq<string>)
    ensures |parts| >= 1
  {
    if s == [] then [""]
    else
      var rest := Split(s[1..]);
      if s[0] == ' ' then [""] + rest
      else [[s[0]] + rest[0]] + rest[1..]
  }

  /** No piece holds a space. */
  lemma {:induction false} SplitSpaceFree(s: string)
    ensures forall i :: 0 <= i < |Split(s)| ==> ' ' !in Split(s)[i]
  {
    if s != [] {
      var rest := Split(s[1..]);
      SplitSpaceFree(s[1..]);
      var parts := Split(s);
      forall i | 0 <= i < |parts|
        ensures ' ' !in parts[i]
      {
        if s[0] == ' ' {
          if i > 0 {
            assert parts[i] == rest[i - 1];
          }
        } else if i > 0 {
          assert parts[i] == rest[i];
        } else {
          assert parts[0] == [s[0]] + rest[0];
          assert ' ' !in rest[0];
        }
      }
    }
  }

  /** A string that does not start (end) with a space has a non-empty first
      (last) piece. */
  lemma {:induction false} SplitEnds(s: string)
    ensures s != [] && s[0] != ' ' ==> Split(s)[0] != []
    ensures s != [] && s[|s| - 1] != ' ' ==> Split(s)[|Split(s)| - 1] != []
  {
    if s != [] {
      SplitEnds(s[1..]);
    }
  }

  /** Puts pieces back together with a single space between neighbours. */
  function Join(parts: seq<string>): (s: string)
    requires |parts| >= 1
  {
    if |parts| == 1 then parts[0] else parts[0] + (" " + Join(parts[1..]))
  }

  function UpperChar(c: char): char {
    if 'a' <= c <= 'z' then (c as int - 32) as char else c
  }

  predicate IsUpper(s: string) {
    forall k :: 0 <= k < |s| ==> !('a' <= s[k] <= 'z')
  }

  /** Upper-cases the ASCII letters of s. */
  function ToUpper(s: string): (r: string)
    ensures |r| == |s| && IsUpper(r)
    ensures forall k :: 0 <= k < |s| && !('a' <= s[k] <= 'z') ==> r[k] == s[k]
    ensures forall k :: 0 <= k < |s| && 'a' <= s[k] <= 'z' ==> r[k] as int == s[k] as int - 32
  {
    seq(|s|, k requires 0 <= k < |s| => UpperChar(s[k]))
  }

  /** Parses the address bar's text: trim, reject an empty address, split on
      spaces, take the last piece as the URL and the first as the method when
      there is more than one piece, else GET; upper-case the method. */
  function ParseAddress(input: string): (r: AddressResult)
    ensures r == EmptyAddress <==> AllSpaces(input)
    ensures r.Parsed? ==> r.address.url != [] && ' ' !in r.address.url
    ensures r.Parsed? ==> r.address.httpMethod != [] && ' ' !in r.address.httpMethod
    ensures r.Parsed? ==> IsUpper(r.address.httpMethod)
  {
    var trimmed := Trim(input);
    if |trimmed| == 0 then EmptyAddress else Parsed(ParseLine(trimmed))
  }

  /** Parses trimmed, non-empty text: the URL is the last space-separated
      token, and the method is the first token upper-cased when there is more
      than one token, else GET. */
  function ParseLine(line: string): (a: Address)
    requires line != [] && line[0] != ' ' && line[|line| - 1] != ' '
    ensures a.url != [] && ' ' !in a.url
    ensures a.httpMethod != [] && ' ' !in a.httpMethod && IsUpper(a.httpMethod)
  {
    var parts := Split(line);
    LastPiece(line, parts[|parts| - 1]);
    FirstPiece(line, if |parts| > 1 then parts[0] else "GET");
    Address(ToUpper(if |parts| > 1 then parts[0] else "GET"), parts[|parts| - 1])
  }

  /** The URL is everything after the last space of the trimmed line. */
  lemma {:induction false} ParseLineUrl(line: string)
    requires line != [] && line[0] != ' ' && line[|line| - 1] != ' '
    ensures var url := ParseLine(line).url;
      |url| <= |line| && line[|line| - |url|..] == url &&
      (|url| < |line| ==> line[|line| - |url| - 1] == ' ') &&
      (' ' !in line ==> url == line)
  {
    var parts := Split(line);
    LastPiece(line, parts[|parts| - 1]);
  }

  /** The method is GET for a single token, else the text before the first
      space, upper-cased. */
  lemma {:induction false} ParseLineMethod(line: string)
    requires line != [] && line[0] != ' ' && line[|line| - 1] != ' '
    ensures ' ' !in line ==> ParseLine(line).httpMethod == "GET"
    ensures var m := ParseLine(line).httpMethod;
      ' ' in line ==> |m| < |line| && line[|m|] == ' ' && m == ToUpper(line[..|m|])
  {
    var parts := Split(line);
    var verb := if |parts| > 1 then parts[0] else "GET";
    FirstPiece(line, verb);
    assert ParseLine(line).httpMethod == ToUpper(verb);
  }

  /** The last piece of a trimmed line is a non-empty space-free suffix,
      after a space unless it is the whole line. */
  lemma {:induction false} LastPiece(line: string, url: string)
    requires line != [] && line[|line| - 1] != ' '
    requires url == Split(line)[|Split(line)| - 1]
    ensures url != [] && ' ' !in url
    ensures |url| <= |line| && line[|line| - |url|..] == url
    ensures |url| < |line| ==> line[|line| - |url| - 1] == ' '
    ensures ' ' !in line ==> url == line
  {
    SplitSpaceFree(line);
    SplitEnds(line);
    SplitPieces(line);
  }

  /** The method word of a trimmed line, before upper-casing: GET for one
      token, else the text before the first space. */
  lemma {:induction false} FirstPiece(line: string, verb: string)
    requires line != [] && line[0] != ' '
    requires verb == if |Split(line)| > 1 then Split(line)[0] else "GET"
    ensures verb != [] && ' ' !in verb
    ensures ' ' !in line ==> ToUpper(verb) == "GET"
    ensures ' ' in line ==> |verb| < |line| && line[|verb|] == ' ' && verb == line[..|verb|]
  {
    SplitSpaceFree(line);
    SplitEnds(line);
    SplitPieces(line);
    if |Split(line)| == 1 {
      UpperGet();
    }
  }

  /** Where the first and the last piece sit in the text that was split. */
  lemma {:induction false} SplitPieces(s: string)
    ensures var parts := Split(s); var l := parts[|parts| - 1];
      |l| <= |s| && s[|s| - |l|..] == l && (|l| < |s| ==> s[|s| - |l| - 1] == ' ')
    ensures ' ' !in s ==> Split(s) == [s]
    ensures ' ' in s ==> var p := Split(s)[0];
      |Split(s)| > 1 && |p| < |s| && s[|p|] == ' ' && s[..|p|] == p
  {
    var parts := Split(s);
    SplitOne(s);
    JoinLastSuffix(parts);
    JoinSplit(s);
  }

  /** A text splits into one piece exactly when it holds no space, and that
      piece is the text itself. */
  lemma {:induction false} SplitOne(s: string)
    ensures |Split(s)| == 1 <==> ' ' !in s
    ensures |Split(s)| == 1 ==> Split(s)[0] == s
    ensures |Split(s)| > 1 ==> s == Split(s)[0] + (" " + Join(Split(s)[1..]))
  {
    var parts := Split(s);
    JoinSplit(s);
    SplitSpaceFree(s);
    if |parts| > 1 {
      assert s[|parts[0]|] == ' ';
    }
  }

  /** The last piece ends the joined text, after a space when there are
      several pieces. */
  lemma {:induction false} JoinLastSuffix(parts: seq<string>)
    requires |parts| >= 1
    ensures var s, l := Join(parts), parts[|parts| - 1];
      |l| <= |s| && s[|s| - |l|..] == l && (|parts| > 1 ==> |l| < |s| && s[|s| - |l| - 1] == ' ')
  {
    if |parts| > 1 {
      var l := parts[|parts| - 1];
      var tail := Join(parts[1..]);
      JoinLastSuffix(parts[1..]);
      assert parts[1..][|parts| - 2] == l;
      var s := Join(parts);
      assert s == (parts[0] + " ") + tail;
      assert s[|s| - |l|..] == tail[|tail| - |l|..];
      if |parts| == 2 {
        assert tail == l;
        assert s[|s| - |l| - 1] == ' ';
      } else {
        assert s[|s| - |l| - 1] == tail[|tail| - |l| - 1];
      }
    }
  }

  lemma {:induction false} JoinCons(c: char, parts: seq<string>)
    requires |parts| >= 1
    ensures Join([[c] + parts[0]] + parts[1..]) == [c] + Join(parts)
  {
    var head := [c] + parts[0];
    var ps := [head] + parts[1..];
    if |parts| == 1 {
      assert ps == [head];
    } else {
      var rest := " " + Join(parts[1..]);
      assert Join(ps) == head + rest by {
        assert ps[1..] == parts[1..];
      }
      assert head + rest == [c] + (parts[0] + rest);
    }
  }

  /** Joining the pieces gives back the string that was split. */
  lemma {:induction false} JoinSplit(s: string)
    ensures Join(Split(s)) == s
  {
    if s != [] {
      var rest := Split(s[1..]);
      JoinSplit(s[1..]);
      if s[0] == ' ' {
        assert ([""] + rest)[1..] == rest;
        assert s == [' '] + s[1..];
      } else {
        JoinCons(s[0], rest);
        assert s == [s[0]] + s[1..];
      }
    }
  }

  lemma {:induction false} SplitSpaceFreePrefix(p: string, t: string)
    requires ' ' !in p
    ensures Split(p + t) == [p + Split(t)[0]] + Split(t)[1..]
  {
    var q := Split(t);
    if p != [] {
      var s := p + t;
      var rest := Split(s[1..]);
      assert rest == [p[1..] + q[0]] + q[1..] by {
        assert s[1..] == p[1..] + t;
        SplitSpaceFreePrefix(p[1..], t);
      }
      assert Split(s) == [[p[0]] + rest[0]] + rest[1..] by {
        assert s[0] == p[0] && p[0] in p;
      }
      assert [p[0]] + rest[0] == p + q[0];
    } else {
      assert p + t == t && p + q[0] == q[0];
      assert [q[0]] + q[1..] == q;
    }
  }

  /** Splitting space-free pieces joined by single spaces gives the pieces back. */
  lemma {:induction false} SplitJoin(parts: seq<string>)
    requires |parts| >= 1
    requires forall i :: 0 <= i < |parts| ==> ' ' !in parts[i]
    ensures Split(Join(parts)) == parts
  {
    if |parts| == 1 {
      SplitSpaceFreePrefix(parts[0], "");
      assert parts[0] + "" == parts[0];
    } else {
      var tail := Join(parts[1..]);
      SplitJoin(parts[1..]);
      SplitSpaceFreePrefix(parts[0], " " + tail);
      assert (" " + tail)[1..] == tail;
      assert parts[0] + "" == parts[0];
    }
  }

  lemma {:induction false} JoinFirst(parts: seq<string>)
    requires |parts| >= 1 && parts[0] != []
    ensures Join(parts) != [] && Join(parts)[0] == parts[0][0]
  {
  }

  lemma {:induction false} JoinLast(parts: seq<string>)
    requires |parts| >= 1 && parts[|parts| - 1] != []
    ensures Join(parts) != []
    ensures Join(parts)[|Join(parts)| - 1] == parts[|parts| - 1][|parts[|parts| - 1]| - 1]
  {
    if |parts| > 1 {
      JoinLast(parts[1..]);
    }
  }

  lemma {:induction false} UpperGet()
    ensures ToUpper("GET") == "GET"
  {
    var u := ToUpper("GET");
    assert u[0] == 'G' && u[1] == 'E' && u[2] == 'T';
  }

  /** A string with no space at either end is its own trim. */
  lemma {:induction false} TrimUntouched(s: string)
    requires s != [] && s[0] != ' ' && s[|s| - 1] != ' '
    ensures Trim(s) == s
  {
  }

  /** Space-free tokens with non-empty ends, joined, need no trimming. */
  lemma {:induction false} TrimJoin(tokens: seq<string>)
    requires |tokens| >= 1
    requires forall i :: 0 <= i < |tokens| ==> ' ' !in tokens[i]
    requires tokens[0] != [] && tokens[|tokens| - 1] != []
    ensures Join(tokens) != [] && Trim(Join(tokens)) == Join(tokens)
  {
    var line := Join(tokens);
    JoinFirst(tokens);
    JoinLast(tokens);
    assert tokens[0][0] in tokens[0];
    var last := tokens[|tokens| - 1];
    assert last[|last| - 1] in last;
    TrimUntouched(line);
  }

  lemma {:induction false} ParseLineOne(line: string)
    requires line != [] && line[0] != ' ' && line[|line| - 1] != ' '
    requires |Split(line)| == 1
    ensures ParseLine(line) == Address("GET", Split(line)[0])
  {
    UpperGet();
  }

  lemma {:induction false} ParseLineMany(line: string)
    requires line != [] && line[0] != ' ' && line[|line| - 1] != ' '
    requires |Split(line)| > 1
    ensures var parts := Split(line);
      ParseLine(line) == Address(ToUpper(parts[0]), parts[|parts| - 1])
  {
  }

  /** A single token is the URL, and the method defaults to GET. */
  lemma {:induction false} ParseSingleToken(token: string)
    requires token != [] && ' ' !in token
    ensures ParseAddress(token) == Parsed(Address("GET", token))
  {
    TrimJoin([token]);
    SplitJoin([token]);
    ParseLineOne(token);
  }

  /** Two or more space-free tokens joined by single spaces: the method is
      the first token upper-cased, the URL is the last token, and the tokens
      in between are dropped. */
  lemma {:induction false} ParseManyTokens(tokens: seq<string>)
    requires |tokens| >= 2
    requires forall i :: 0 <= i < |tokens| ==> ' ' !in tokens[i]
    requires tokens[0] != [] && tokens[|tokens| - 1] != []
    ensures ParseAddress(Join(tokens)) == Parsed(Address(ToUpper(tokens[0]), tokens[|tokens| - 1]))
  {
    TrimJoin(tokens);
    SplitJoin(tokens);
    ParseLineMany(Join(tokens));
  }

  lemma {:induction false} TrimLeftAfterSpaces(lead: string, s: string)
    requires AllSpaces(lead)
    ensures TrimLeft(lead + s) == TrimLeft(s)
  {
    if lead != [] {
      assert (lead + s)[1..] == lead[1..] + s;
      TrimLeftAfterSpaces(lead[1..], s);
    } else {
      assert lead + s == s;
    }
  }

  lemma {:induction false} TrimRightBeforeSpaces(s: string, trail: string)
    requires AllSpaces(trail)
    ensures TrimRight(s + trail) == TrimRight(s)
  {
    if trail != [] {
      var n := |trail| - 1;
      assert (s + trail)[..|s + trail| - 1] == s + trail[..n];
      TrimRightBeforeSpaces(s, trail[..n]);
    } else {
      assert s + trail == s;
    }
  }

  lemma {:induction false} TrimLeftKeepsTail(s: string, trail: string)
    requires !AllSpaces(s)
    ensures TrimLeft(s + trail) == TrimLeft(s) + trail
  {
    if s[0] == ' ' {
      assert (s + trail)[1..] == s[1..] + trail;
      TrimLeftKeepsTail(s[1..], trail);
    }
  }

  /** Spaces around the address do not change what it parses to. */
  lemma {:induction false} SurroundingSpacesIgnored(lead: string, s: string, trail: string)
    requires AllSpaces(lead) && AllSpaces(trail)
    ensures ParseAddress(lead + s + trail) == ParseAddress(s)
  {
    assert lead + s + trail == lead + (s + trail);
    TrimLeftAfterSpaces(lead, s + trail);
    if AllSpaces(s) {
      assert AllSpaces(s + trail);
    } else {
      TrimLeftKeepsTail(s, trail);
      TrimRightBeforeSpaces(TrimLeft(s), trail);
    }
  }

  /** A lone token with spaces around it is the URL of a GET request. */
  lemma {:induction false} PaddedTokenIsGet(lead: string, token: string, trail: string)
    requires AllSpaces(lead) && AllSpaces(trail)
    requires token != [] && ' ' !in token
    ensures ParseAddress(lead + token + trail) == Parsed(Address("GET", token))
  {
    SurroundingSpacesIgnored(lead, token, trail);
    ParseSingleToken(token);
  }

  /** The address bar component. The text input itself is a collaborator
      whose internals are not part of this model: `edit` stands for its
      reaction to a message, seen through the text it holds. */
  class Model {
    const edit: (string, Msg) -> string
    var value: string
    /** The messages this component's update has been given. */
    ghost var received: seq<Msg>

    constructor (edit: (string, Msg) -> string)
      ensures this.edit == edit && value == [] && received == []
    {
      this.edit := edit;
      value := [];
      received := [];
    }

    function GetAddress(): AddressResult
      reads this
    {
      ParseAddress(value)
    }

    /** Enter submits a new request and is not passed on; every other message
        goes to the text input. */
    method Update(msg: Msg) returns (cmd: Cmd)
      modifies this
      ensures received == old(received) + [msg]
      ensures msg == KeyMsg(Enter) ==> cmd == SubmitNewRequest && value == old(value)
      ensures msg != KeyMsg(Enter) ==> cmd == ChildCmd(TextInput, msg) && value == edit(old(value), msg)
    {
      received := received + [msg];
      if msg == KeyMsg(Enter) {
        return SubmitNewRequest;
      }
      value := edit(value, msg);
      cmd := ChildCmd(TextInput, msg);
    }
  }
}
