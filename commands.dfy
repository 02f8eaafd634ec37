/**
 * The command lines the `Client` and `Session` methods of src/client.rs send,
 * before the tag is put in front: a verb, then its arguments separated by
 * single spaces, each argument inserted as written, quoted with `quote!`, or
 * quoted after `validate_str` has checked it for CR and LF. Each method's
 * `format!` is written here as a `Line` of its verb and its arguments.
 */
module Commands {
  import opened Base
  import opened Errors
  import opened Quoting
  import opened Framing

  const LBRACE: byte := 0x7B
  const RBRACE: byte := 0x7D

  /** A capital letter or a space. */
  predicate IsVerbOctet(b: byte) {
    0x41 <= b <= 0x5A || b == SP
  }

  /** The octets of a command verb written in capital letters and spaces;
      any other character would stand as a space. */
  function Word(s: string): Bytes {
    if s == [] then []
    else (if 'A' <= s[0] <= 'Z' then [s[0] as int as byte] else [SP]) + Word(s[1..])
  }

  /** A verb is written with the character codes of its letters, and consists
      of capital letters and spaces only. */
  lemma {:induction false} WordOctets(s: string)
    ensures |Word(s)| == |s|
    ensures forall i | 0 <= i < |s| :: IsVerbOctet(Word(s)[i])
    ensures forall i | 0 <= i < |s| :: 'A' <= s[i] <= 'Z' ==> Word(s)[i] as int == s[i] as int
    decreases |s|
  {
    if s != [] {
      WordOctets(s[1..]);
    }
  }

  /** How an argument goes into the line. */
  datatype Arg =
    | Atom(text: Bytes)      // inserted as written
    | Quoted(text: Bytes)    // `quote!`
    | Checked(text: Bytes)   // `validate_str`
    | Bare(text: Bytes)      // between double quotes, not escaped
    | Size(n: nat)           // a literal's octet count in braces

  function Encode(a: Arg): Outcome<Bytes> {
    match a
    case Atom(t) => Ok(t)
    case Quoted(t) => Ok(Quote(t))
    case Checked(t) => ValidateStr(t)
    case Bare(t) => Ok([DQUOTE] + t + [DQUOTE])
    case Size(n) => Ok([LBRACE] + Decimal(n) + [RBRACE])
  }

  /** `line` followed by each argument after a space, or the first argument
      that fails to encode. */
  function Fields(line: Bytes, args: seq<Arg>): Outcome<Bytes>
    decreases |args|
  {
    if args == [] then Ok(line)
    else
      var h :- Encode(args[0]);
      Fields(line + [SP] + h, args[1..])
  }

  /** A command line: the verb, then the encoded arguments. A `validate_str`
      that fails ends the method before anything is sent. */
  function Line(verb: string, args: seq<Arg>): Outcome<Bytes> {
    Fields(Word(verb), args)
  }

  lemma FieldsOfOne(line: Bytes, a: Arg)
    ensures Fields(line, [a]) == if !Encode(a).Ok? then Encode(a).PropagateFailure() else Ok(line + [SP] + Encode(a).value)
  {
    assert [a][1..] == [];
  }

  lemma FieldsOfTwo(line: Bytes, a: Arg, b: Arg)
    ensures Fields(line, [a, b]) ==
      if !Encode(a).Ok? then Encode(a).PropagateFailure()
      else if !Encode(b).Ok? then Encode(b).PropagateFailure()
      else Ok(line + [SP] + Encode(a).value + [SP] + Encode(b).value)
  {
    assert [a, b][1..] == [b];
    if Encode(a).Ok? {
      FieldsOfOne(line + [SP] + Encode(a).value, b);
    }
  }

  // ------------------------------------------------------- what is checked

  /** An argument `validate_str` refuses. */
  predicate Refused(a: Arg) {
    a.Checked? && (CR in a.text || LF in a.text)
  }

  /** The error `validate_str` reports for a refused argument. */
  function Refusal(a: Arg): Error
    requires Refused(a)
  {
    if LF in a.text then Validate('\n') else Validate('\r')
  }

  function FirstRefused(args: seq<Arg>): (k: nat)
    ensures k <= |args|
    ensures forall i | 0 <= i < k :: !Refused(args[i])
    ensures k < |args| ==> Refused(args[k])
  {
    if args == [] then 0 else if Refused(args[0]) then 0 else 1 + FirstRefused(args[1..])
  }

  /** The arguments encode unless one is refused, and then the error is the
      first refused argument's. */
  lemma {:induction false} FieldsFail(line: Bytes, args: seq<Arg>)
    ensures var k := FirstRefused(args);
      && (Fields(line, args).Ok? <==> k == |args|)
      && (k < |args| ==> Fields(line, args) == Err(Refusal(args[k])))
    decreases |args|
  {
    if args != [] && Encode(args[0]).Ok? {
      FieldsFail(line + [SP] + Encode(args[0]).value, args[1..]);
    }
  }

  /** A command line is built exactly when no checked argument holds a CR
      or an LF; otherwise the method fails with `Validate` of the first
      one's offending character, LF taking precedence over CR. Building a
      line never panics. */
  lemma LineFails(verb: string, args: seq<Arg>)
    ensures var k := FirstRefused(args);
      && (Line(verb, args).Ok? <==> forall i | 0 <= i < |args| :: !Refused(args[i]))
      && (k < |args| ==> Line(verb, args) == Err(Refusal(args[k])))
      && !Line(verb, args).Panic?
  {
    FieldsFail(Word(verb), args);
  }

  predicate Unbroken(s: Bytes) {
    CR !in s && LF !in s
  }

  function TextOf(a: Arg): Bytes {
    match a
    case Size(_) => []
    case _ => a.text
  }

  lemma EncodeUnbroken(a: Arg)
    requires Unbroken(TextOf(a)) && Encode(a).Ok?
    ensures Unbroken(Encode(a).value)
  {
    match a
    case Quoted(t) => QuoteKeeps(t, CR); QuoteKeeps(t, LF);
    case Size(n) =>
      DecimalRoundTrip(n);
      var d := [LBRACE] + Decimal(n) + [RBRACE];
      forall i | 0 <= i < |d| ensures d[i] != CR && d[i] != LF {
        if 0 < i < |d| - 1 {
          assert d[i] == Decimal(n)[i - 1];
        }
      }
    case _ =>
  }

  lemma {:induction false} FieldsUnbroken(line: Bytes, args: seq<Arg>)
    requires Unbroken(line) && forall i | 0 <= i < |args| :: Unbroken(TextOf(args[i]))
    requires Fields(line, args).Ok?
    ensures Unbroken(Fields(line, args).value)
    decreases |args|
  {
    if args != [] {
      EncodeUnbroken(args[0]);
      FieldsUnbroken(line + [SP] + Encode(args[0]).value, args[1..]);
    }
  }

  /** With no CR or LF in any argument the command is one line: nothing in it
      can end the line early or start another command. */
  lemma LineIsOneLine(verb: string, args: seq<Arg>)
    requires forall i | 0 <= i < |args| :: Unbroken(TextOf(args[i]))
    ensures Line(verb, args).Ok? && Unbroken(Line(verb, args).value)
  {
    LineFails(verb, args);
    var v := Word(verb);
    WordOctets(verb);
    assert Unbroken(v) by {
      forall i | 0 <= i < |v| ensures v[i] != CR && v[i] != LF {
        assert IsVerbOctet(v[i]);
      }
    }
    FieldsUnbroken(v, args);
  }

  /** What is written so far stays at the front of the line. */
  lemma {:induction false} FieldsExtend(line: Bytes, args: seq<Arg>)
    requires Fields(line, args).Ok?
    ensures line <= Fields(line, args).value
    decreases |args|
  {
    if args != [] {
      var next := line + [SP] + Encode(args[0]).value;
      FieldsExtend(next, args[1..]);
      assert line <= next;
    }
  }

  lemma {:induction false} FieldsCarryAtoms(line: Bytes, args: seq<Arg>, j: nat, b: byte)
    requires j < |args| && args[j].Atom? && b in args[j].text && Fields(line, args).Ok?
    ensures b in Fields(line, args).value
    decreases |args|
  {
    var next := line + [SP] + Encode(args[0]).value;
    if j > 0 {
      FieldsCarryAtoms(next, args[1..], j - 1, b);
    } else {
      FieldsExtend(next, args[1..]);
      assert b in next;
    }
  }

  /** An argument written as given reaches the line unchanged, so an LF in a
      mailbox name given to COPY, or in a query, is sent, while the same name
      given to CREATE, SELECT or MOVE is refused. */
  lemma UncheckedArgumentsPassThrough(verb: string, args: seq<Arg>, j: nat)
    requires j < |args| && args[j].Atom? && LF in args[j].text
    requires Line(verb, args).Ok?
    ensures LF in Line(verb, args).value
  {
    FieldsCarryAtoms(Word(verb), args, j, LF);
  }

  /** `copy` sends its mailbox name as written, `mv` checks it. */
  lemma CopyAndMoveDiffer(sequenceSet: Bytes, mailbox: Bytes)
    requires LF in mailbox
    ensures Line("COPY", [Atom(sequenceSet), Atom(mailbox)]).Ok?
    ensures LF in Line("COPY", [Atom(sequenceSet), Atom(mailbox)]).value
    ensures Line("MOVE", [Atom(sequenceSet), Checked(mailbox)]) == Err(Validate('\n'))
  {
    FieldsOfTwo(Word("COPY"), Atom(sequenceSet), Atom(mailbox));
    UncheckedArgumentsPassThrough("COPY", [Atom(sequenceSet), Atom(mailbox)], 1);
    FieldsOfTwo(Word("MOVE"), Atom(sequenceSet), Checked(mailbox));
  }

  /** LOGIN checks the username first, then the password, and sends both quoted. */
  lemma LoginLine(username: Bytes, password: Bytes)
    ensures var l := Line("LOGIN", [Checked(username), Checked(password)]);
      && (LF in username ==> l == Err(Validate('\n')))
      && (LF !in username && CR in username ==> l == Err(Validate('\r')))
      && (Unbroken(username) && LF in password ==> l == Err(Validate('\n')))
      && (Unbroken(username) && LF !in password && CR in password ==> l == Err(Validate('\r')))
      && (Unbroken(username) && Unbroken(password) ==>
            l == Ok(Word("LOGIN") + [SP] + Quote(username) + [SP] + Quote(password)))
  {
    FieldsOfTwo(Word("LOGIN"), Checked(username), Checked(password));
  }

  /** A `validate_str`'d argument of a line that was built reads back as the argument. */
  lemma CheckedReadsBack(verb: string, args: seq<Arg>, j: nat)
    requires j < |args| && args[j].Checked? && Line(verb, args).Ok?
    ensures Encode(args[j]).Ok? && Unquote(Encode(args[j]).value) == Some(args[j].text)
  {
    LineFails(verb, args);
    assert !Refused(args[j]);
  }
}
