/**
 * Sender extraction from a fetched message's headers (`get_sender`, and its twin
 * `GetSender`): the first header whose name equals `interest` case-insensitively and
 * whose value, split on single spaces, has a field containing `@`; that field is
 * returned, with leading `<` and trailing `>` stripped when it contains a `<`.
 */
module Headers {
  import opened Common

  /** One entry of `message['payload']['headers']`. */
  datatype Header = Header(name: string, value: string)

  predicate IsUpper(c: char) {
    'A' <= c <= 'Z'
  }

  /** `str.lower()` on one character (ASCII letters only). */
  function LowerChar(c: char): (d: char)
    ensures !IsUpper(d)
    ensures !IsUpper(c) ==> d == c
    ensures IsUpper(c) ==> 'a' <= d <= 'z' && d as int - c as int == 'a' as int - 'A' as int
  {
    if IsUpper(c) then (c as int - 'A' as int + 'a' as int) as char else c
  }

  function Lower(s: string): (t: string)
    ensures |t| == |s|
    ensures forall i :: 0 <= i < |s| ==> t[i] == LowerChar(s[i])
  {
    if |s| == 0 then [] else [LowerChar(s[0])] + Lower(s[1..])
  }

  /** Lowering twice is lowering once. */
  lemma LowerIdempotent(s: string)
    ensures Lower(Lower(s)) == Lower(s)
  {
  }

  /** `name.lower() == interest.lower()` */
  predicate NameMatches(name: string, interest: string) {
    Lower(name) == Lower(interest)
  }

  /** The match ignores the case of either side: "From", "FROM" and "from" all match "FROM". */
  lemma NameMatchesIgnoresCase(name: string, interest: string)
    ensures NameMatches(name, interest) <==> NameMatches(Lower(name), interest)
    ensures NameMatches(name, interest) <==> NameMatches(name, Lower(interest))
    ensures NameMatches(name, interest) <==> NameMatches(interest, name)
  {
    LowerIdempotent(name);
    LowerIdempotent(interest);
  }

  /** `s.split(" ")`: the pieces between single spaces, empty pieces included. */
  function Split(s: string): (fields: seq<string>)
    ensures |fields| > 0
    ensures forall i :: 0 <= i < |fields| ==> ' ' !in fields[i]
  {
    if |s| == 0 then [""]
    else
      var rest := Split(s[1..]);
      if s[0] == ' ' then [""] + rest
      else [[s[0]] + rest[0]] + rest[1..]
  }

  /** `" ".join(fields)` */
  function Join(fields: seq<string>): string
    requires |fields| > 0
  {
    if |fields| == 1 then fields[0] else fields[0] + " " + Join(fields[1..])
  }

  /** Splitting loses nothing: the fields joined by single spaces give back the value. */
  lemma {:induction false} JoinSplit(s: string)
    ensures Join(Split(s)) == s
  {
    if |s| > 0 {
      var rest := Split(s[1..]);
      JoinSplit(s[1..]);
      if s[0] == ' ' {
        assert Split(s)[1..] == rest;
        assert s == [' '] + s[1..];
      } else {
        var head := [s[0]] + rest[0];
        assert Split(s)[1..] == rest[1..];
        if |rest| == 1 {
          assert s == head;
        } else {
          assert Join(rest) == rest[0] + " " + Join(rest[1..]);
          assert s == [s[0]] + s[1..];
        }
      }
    }
  }

  /** The end of the run of `c` that starts at `from`. */
  function LeadingRun(s: string, c: char, from: nat): (n: nat)
    requires from <= |s|
    ensures from <= n <= |s|
    ensures forall i :: from <= i < n ==> s[i] == c
    ensures n < |s| ==> s[n] != c
    decreases |s| - from
  {
    if from < |s| && s[from] == c then LeadingRun(s, c, from + 1) else from
  }

  /** The start of the run of `c` that ends just before `to`. */
  function TrailingRun(s: string, c: char, to: nat): (n: nat)
    requires to <= |s|
    ensures n <= to
    ensures forall i :: n <= i < to ==> s[i] == c
    ensures n > 0 ==> s[n - 1] != c
  {
    if to > 0 && s[to - 1] == c then TrailingRun(s, c, to - 1) else to
  }

  /** `s.lstrip(c)`: `s` without its leading run of `c`. */
  function LStrip(s: string, c: char): (t: string)
    ensures |t| <= |s| && t == s[|s| - |t|..]
    ensures forall i :: 0 <= i < |s| - |t| ==> s[i] == c
    ensures |t| > 0 ==> t[0] != c
  {
    s[LeadingRun(s, c, 0)..]
  }

  /** `s.rstrip(c)`: `s` without its trailing run of `c`. */
  function RStrip(s: string, c: char): (t: string)
    ensures |t| <= |s| && t == s[..|t|]
    ensures forall i :: |t| <= i < |s| ==> s[i] == c
    ensures |t| > 0 ==> t[|t| - 1] != c
  {
    s[..TrailingRun(s, c, |s|)]
  }

  /**
   * A field as returned: verbatim when it has no `<`; otherwise the part between its
   * maximal leading run of `<` and the maximal trailing run of `>` of what remains.
   */
  function Cleaned(field: string): (t: string)
    ensures '<' !in field ==> t == field
    ensures '<' in field ==>
      exists a, b :: 0 <= a <= b <= |field| && t == field[a..b]
        && (forall i :: 0 <= i < a ==> field[i] == '<') && (a < |field| ==> field[a] != '<')
        && (forall i :: b <= i < |field| ==> field[i] == '>') && (a < b ==> field[b - 1] != '>')
  {
    if '<' in field then
      var a := LeadingRun(field, '<', 0);
      var l := field[a..];
      var b := TrailingRun(l, '>', |l|);
      assert RStrip(LStrip(field, '<'), '>') == field[a..a + b];
      assert forall i :: a + b <= i < |field| ==> field[i] == l[i - a];
      RStrip(LStrip(field, '<'), '>')
    else field
  }

  /** Stripping `<` and `>` never removes an `@`. */
  lemma CleanedKeepsAt(field: string)
    requires '@' in field
    ensures '@' in Cleaned(field)
  {
    if '<' in field {
      var i :| 0 <= i < |field| && field[i] == '@';
      var a := LeadingRun(field, '<', 0);
      assert a <= i;
      var l := field[a..];
      assert l == LStrip(field, '<');
      var b := TrailingRun(l, '>', |l|);
      assert l[i - a] == '@';
      assert i - a < b;
      assert Cleaned(field) == l[..b];
      assert Cleaned(field)[i - a] == '@';
    }
  }

  /** The least index `j >= from` whose field contains `@`, or `|fields|` if there is none. */
  function FirstWithAt(fields: seq<string>, from: nat): (j: nat)
    requires from <= |fields|
    ensures from <= j <= |fields|
    ensures j < |fields| ==> '@' in fields[j]
    ensures forall i :: from <= i < j ==> '@' !in fields[i]
    decreases |fields| - from
  {
    if from == |fields| || '@' in fields[from] then from else FirstWithAt(fields, from + 1)
  }

  /** The cleaned form of the first field that contains `@`, if any. */
  function FirstAddress(fields: seq<string>): (r: Option<string>)
    ensures r.None? <==> forall i :: 0 <= i < |fields| ==> '@' !in fields[i]
    ensures r.Some? ==> '@' in r.value
    ensures r.Some? ==>
      exists i :: 0 <= i < |fields| && '@' in fields[i] && r.value == Cleaned(fields[i])
        && forall j :: 0 <= j < i ==> '@' !in fields[j]
  {
    var j := FirstWithAt(fields, 0);
    if j < |fields| then
      CleanedKeepsAt(fields[j]);
      Some(Cleaned(fields[j]))
    else None
  }

  /** The address header `h` offers for `interest`, if its name matches and its value has one. */
  function Offered(h: Header, interest: string): Option<string> {
    if NameMatches(h.name, interest) then FirstAddress(Split(h.value)) else None
  }

  /** The least index `j >= from` whose header offers an address, or `|headers|` if there is none. */
  function FirstOffering(headers: seq<Header>, interest: string, from: nat): (j: nat)
    requires from <= |headers|
    ensures from <= j <= |headers|
    ensures j < |headers| ==> Offered(headers[j], interest).Some?
    ensures forall i :: from <= i < j ==> Offered(headers[i], interest).None?
    decreases |headers| - from
  {
    if from == |headers| || Offered(headers[from], interest).Some? then from
    else FirstOffering(headers, interest, from + 1)
  }

  /**
   * `get_sender(message, interest)` on the message's headers: the address offered by
   * the first header that offers one; a matching header without an `@` field is
   * passed over.
   */
  function GetSender(headers: seq<Header>, interest: string): (r: Option<string>)
    ensures r.Some? ==> '@' in r.value
    ensures r.None? <==> forall i :: 0 <= i < |headers| ==> Offered(headers[i], interest).None?
    ensures r.Some? ==>
      exists i :: 0 <= i < |headers| && r == Offered(headers[i], interest)
        && forall j :: 0 <= j < i ==> Offered(headers[j], interest).None?
  {
    var j := FirstOffering(headers, interest, 0);
    if j < |headers| then Offered(headers[j], interest) else None
  }

  /**
   * The result comes from the first header that offers an address: whatever the
   * headers after it hold, and whatever headers before it matched without an `@`.
   */
  lemma GetSenderFirst(headers: seq<Header>, interest: string, i: nat)
    requires i < |headers| && Offered(headers[i], interest).Some?
    requires forall j :: 0 <= j < i ==> Offered(headers[j], interest).None?
    ensures GetSender(headers, interest) == Offered(headers[i], interest)
  {
    var j := FirstOffering(headers, interest, 0);
    assert !(j < i) && !(i < j);
  }

  /** A header that offers an address fixes the result whatever follows it. */
  lemma GetSenderPrefix(headers: seq<Header>, more: seq<Header>, interest: string)
    requires GetSender(headers, interest).Some?
    ensures GetSender(headers + more, interest) == GetSender(headers, interest)
  {
    var j := FirstOffering(headers, interest, 0);
    assert forall k :: 0 <= k <= j ==> (headers + more)[k] == headers[k];
    GetSenderFirst(headers + more, interest, j);
  }
}
