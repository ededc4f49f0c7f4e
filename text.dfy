/** The string operations the back end relies on, with Ruby's semantics:
    `split(" ")`, `join`, ASCII `downcase`/`upcase` and `Integer#to_s`. */
module Text {

  /** The characters Ruby's whitespace split treats as separators:
      space and \t, \n, \v, \f, \r. */
  predicate IsSpace(c: char)
  {
    c == ' ' || ('\t' <= c <= '\r')
  }

  predicate NoSpace(s: string)
  {
    forall i :: 0 <= i < |s| ==> !IsSpace(s[i])
  }

  predicate AllSpace(s: string)
  {
    forall i :: 0 <= i < |s| ==> IsSpace(s[i])
  }

  /** The fields of `s` as Ruby's `s.split(" ")` returns them, reading one
      character at a time with the field `cur` gathered so far: whitespace
      ends a non-empty field, so leading, trailing and repeated whitespace
      make no empty fields. */
  function Fields(s: string, cur: string): seq<string>
  {
    if s == [] then (if cur == [] then [] else [cur])
    else if IsSpace(s[0]) then (if cur == [] then [] else [cur]) + Fields(s[1..], [])
    else Fields(s[1..], cur + [s[0]])
  }

  function Words(s: string): seq<string>
  {
    Fields(s, [])
  }

  /** No field is empty and no field holds whitespace. */
  lemma {:induction false} FieldsAreWords(s: string, cur: string)
    requires NoSpace(cur)
    ensures forall i :: 0 <= i < |Fields(s, cur)| ==> Fields(s, cur)[i] != [] && NoSpace(Fields(s, cur)[i])
  {
    if s != [] {
      if IsSpace(s[0]) {
        FieldsAreWords(s[1..], []);
        var rest := Fields(s[1..], []);
        var head: seq<string> := if cur == [] then [] else [cur];
        forall i | 0 <= i < |Fields(s, cur)|
          ensures Fields(s, cur)[i] != [] && NoSpace(Fields(s, cur)[i])
        {
          assert Fields(s, cur) == head + rest;
          if i >= |head| {
            assert Fields(s, cur)[i] == rest[i - |head|];
          }
        }
      } else {
        assert NoSpace(cur + [s[0]]) by {
          assert forall i :: 0 <= i < |cur| ==> (cur + [s[0]])[i] == cur[i];
        }
        FieldsAreWords(s[1..], cur + [s[0]]);
      }
    }
  }

  lemma WordsAreWords(s: string)
    ensures forall i :: 0 <= i < |Words(s)| ==> Words(s)[i] != [] && NoSpace(Words(s)[i])
  {
    FieldsAreWords(s, []);
  }

  /** A word read after the field `cur` extends that field. */
  lemma {:induction false} FieldsOfWord(w: string, rest: string, cur: string)
    requires NoSpace(w)
    ensures Fields(w + rest, cur) == Fields(rest, cur + w)
  {
    if w == [] {
      assert w + rest == rest;
      assert cur + w == cur;
    } else {
      assert (w + rest)[0] == w[0];
      assert (w + rest)[1..] == w[1..] + rest;
      FieldsOfWord(w[1..], rest, cur + [w[0]]);
      assert cur + [w[0]] + w[1..] == cur + w;
    }
  }

  /** Whitespace read outside a field is skipped. */
  lemma {:induction false} FieldsOfSpace(lead: string, rest: string)
    requires AllSpace(lead)
    ensures Fields(lead + rest, []) == Fields(rest, [])
  {
    if lead == [] {
      assert lead + rest == rest;
    } else {
      assert (lead + rest)[0] == lead[0];
      assert (lead + rest)[1..] == lead[1..] + rest;
      FieldsOfSpace(lead[1..], rest);
    }
  }

  /** Whitespace before a word, and the word ending at whitespace or at the
      end of the string, make that word the first field. */
  lemma WordsCons(lead: string, w: string, rest: string)
    requires AllSpace(lead) && w != [] && NoSpace(w)
    requires rest == [] || IsSpace(rest[0])
    ensures Words(lead + w + rest) == [w] + Words(rest)
  {
    assert lead + w + rest == lead + (w + rest);
    FieldsOfSpace(lead, w + rest);
    FieldsOfWord(w, rest, []);
    assert [] + w == w;
  }

  /** A scheme word, one space and a token make exactly two fields. */
  lemma SchemeAndToken(scheme: string, token: string)
    requires scheme != [] && NoSpace(scheme) && token != [] && NoSpace(token)
    ensures Words(scheme + " " + token) == [scheme, token]
  {
    var empty: string := [];
    WordsCons(empty, scheme, " " + token);
    WordsCons(" ", token, empty);
    assert " " + token + empty == " " + token;
    assert empty + scheme + (" " + token) == scheme + " " + token;
  }

  /** A string with only whitespace has no fields. */
  lemma WordsOfSpace(s: string)
    requires AllSpace(s)
    ensures Words(s) == []
  {
    FieldsOfSpace(s, []);
    assert s + [] == s;
  }

  /** Ruby's `parts.join(sep)`. */
  function Join(parts: seq<string>, sep: string): string
  {
    if |parts| == 0 then ""
    else if |parts| == 1 then parts[0]
    else parts[0] + sep + Join(parts[1..], sep)
  }

  /** Joining one more part adds the separator and that part at the end. */
  lemma {:induction false} JoinSnoc(parts: seq<string>, p: string, sep: string)
    requires parts != []
    ensures Join(parts + [p], sep) == Join(parts, sep) + sep + p
  {
    if |parts| == 1 {
      assert parts + [p] == [parts[0], p];
    } else {
      assert (parts + [p])[1..] == parts[1..] + [p];
      JoinSnoc(parts[1..], p, sep);
    }
  }

  /** The joined string is as long as the parts plus one separator between
      each two of them. */
  lemma {:induction false} JoinLength(parts: seq<string>, sep: string)
    ensures |Join(parts, sep)| == TotalLength(parts) + (if parts == [] then 0 else (|parts| - 1) * |sep|)
  {
    if |parts| > 1 {
      JoinLength(parts[1..], sep);
    }
  }

  function TotalLength(parts: seq<string>): nat
  {
    if parts == [] then 0 else |parts[0]| + TotalLength(parts[1..])
  }

  /** ASCII case mapping, as Ruby's `downcase` and `upcase` do for ASCII letters. */
  function LowerChar(c: char): char
  {
    if 'A' <= c <= 'Z' then (c as int + 32) as char else c
  }

  function UpperChar(c: char): char
  {
    if 'a' <= c <= 'z' then (c as int - 32) as char else c
  }

  function Downcase(s: string): (r: string)
    ensures |r| == |s| && forall i :: 0 <= i < |s| ==> r[i] == LowerChar(s[i])
  {
    seq(|s|, i requires 0 <= i < |s| => LowerChar(s[i]))
  }

  function Upcase(s: string): (r: string)
    ensures |r| == |s| && forall i :: 0 <= i < |s| ==> r[i] == UpperChar(s[i])
  {
    seq(|s|, i requires 0 <= i < |s| => UpperChar(s[i]))
  }

  predicate IsLetter(c: char)
  {
    'A' <= c <= 'Z' || 'a' <= c <= 'z'
  }

  /** Mapping to one case and then to either case only looks at the letters'
      identity, not at their case. */
  lemma CaseMapsAbsorb(s: string)
    ensures Upcase(Downcase(s)) == Upcase(s) && Downcase(Upcase(s)) == Downcase(s)
    ensures Upcase(Upcase(s)) == Upcase(s) && Downcase(Downcase(s)) == Downcase(s)
  {
  }

  /** A string without letters is unchanged by both case mappings. */
  lemma CaselessFixed(s: string)
    requires forall i :: 0 <= i < |s| ==> !IsLetter(s[i])
    ensures Downcase(s) == s && Upcase(s) == s
  {
  }

  function DigitChar(d: nat): (c: char)
    requires d < 10
    ensures '0' <= c <= '9' && c as int - '0' as int == d
  {
    (d + '0' as int) as char
  }

  /** Ruby's `Integer#to_s` on a non-negative integer: its decimal digits,
      most significant first, with no leading zero. */
  function NatToString(n: nat): (s: string)
    ensures s != [] && forall i :: 0 <= i < |s| ==> '0' <= s[i] <= '9'
    ensures |s| > 1 ==> s[0] != '0'
  {
    if n < 10 then [DigitChar(n)] else NatToString(n / 10) + [DigitChar(n % 10)]
  }

  /** Reads a string of decimal digits back as a number. */
  function ParseNat(s: string): nat
    requires forall i :: 0 <= i < |s| ==> '0' <= s[i] <= '9'
  {
    if s == [] then 0 else ParseNat(s[..|s| - 1]) * 10 + (s[|s| - 1] as int - '0' as int)
  }

  /** The decimal rendering is read back as the same number, so different
      counts never render alike. */
  lemma {:induction false} ParseNatToString(n: nat)
    ensures ParseNat(NatToString(n)) == n
  {
    if n >= 10 {
      var s := NatToString(n);
      assert s[..|s| - 1] == NatToString(n / 10);
      ParseNatToString(n / 10);
    }
  }
}
