/**
 * The transformer's literal and token rules: numeric and boolean literal
 * coercion, comparison-glyph normalisation and comment text cleanup.
 */
module Literals {
  import opened Ast
  import opened ParseItems
  import opened Text

  /**
   * NUMBER: a token with a decimal point is a fractional literal (kept as its
   * text); otherwise it is read as a decimal integer.
   */
  function NumberLiteral(text: string): (r: Result<NumLit>)
    ensures r.Ok? && r.value.DecimalLit? <==> '.' in text
    ensures r.Ok? && r.value.DecimalLit? ==> r.value.text == text
    ensures '.' !in text ==> (r.Ok? <==> |text| > 0 && AllDigits(text))
  {
    if '.' in text then Ok(DecimalLit(text))
    else if |text| > 0 && AllDigits(text) then Ok(IntLit(DigitsValue(text)))
    else Err(BadLiteral)
  }

  /** Every rendered natural number reads back as that integer. */
  lemma NumberOfRenderedNat(n: nat)
    ensures NumberLiteral(NatToString(n)) == Ok(IntLit(n))
  {
    DigitsRoundTrip(n);
  }

  /** A leading zero does not change an integer literal, as with `int("007")`, which is 7. */
  lemma LeadingZeroIgnored(s: string)
    requires '.' !in s
    ensures NumberLiteral("0" + s) == if s == [] then Ok(IntLit(0)) else NumberLiteral(s)
  {
    assert '.' !in "0" + s;
    if |s| > 0 && AllDigits(s) {
      DigitsLeadingZero(s);
    } else if s == [] {
      assert "0" + s == "0" && "0"[..0] == [];
    } else {
      assert !AllDigits("0" + s) by {
        var i :| 0 <= i < |s| && !IsDigit(s[i]);
        assert ("0" + s)[i + 1] == s[i];
      }
    }
  }

  /** `007` reads as the integer 7. */
  lemma LeadingZerosExample()
    ensures NumberLiteral("007") == Ok(IntLit(7))
  {
    NumberExamples();
    LeadingZeroIgnored("7");
    assert "0" + "7" == "07";
    LeadingZeroIgnored("07");
    assert "0" + "07" == "007";
  }

  /** `12.50` stays a fractional literal with its text; `7` is the integer 7. */
  lemma NumberExamples()
    ensures NumberLiteral("12.50") == Ok(DecimalLit("12.50"))
    ensures NumberLiteral("7") == Ok(IntLit(7))
    ensures NumberLiteral("1e5").Err?
  {
    assert "7"[..0] == [];
    assert '.' !in "1e5";
    assert !IsDigit("1e5"[1]);
  }

  /** BOOLEAN: true exactly when the lower-cased token is `t` or `true`. */
  function BooleanLiteral(text: string): (b: bool)
    ensures b ==> (|text| == 1 || |text| == 4) && text[0] in {'t', 'T'}
  {
    AsciiLower(text) in {"t", "true"}
  }

  /** The accepted truthy spellings are `t` and `true` in any mix of letter case, and nothing else. */
  lemma {:induction false} BooleanLiteralSpelling(text: string)
    ensures BooleanLiteral(text) <==>
      (|text| == 1 && text[0] in {'t', 'T'}) ||
      (|text| == 4 && text[0] in {'t', 'T'} && text[1] in {'r', 'R'}
                   && text[2] in {'u', 'U'} && text[3] in {'e', 'E'})
  {
    var low := AsciiLower(text);
    if |text| == 1 {
      assert low == "t" <==> low[0] == 't';
    } else if |text| == 4 {
      assert low == "true" <==> low[0] == 't' && low[1] == 'r' && low[2] == 'u' && low[3] == 'e';
    }
  }

  /** Letter case never changes the literal's truth. */
  lemma BooleanLiteralCaseInsensitive(a: string, b: string)
    requires AsciiLower(a) == AsciiLower(b)
    ensures BooleanLiteral(a) == BooleanLiteral(b)
  {
  }

  /** `FALSE`, `f` and `false` all read as false. */
  lemma BooleanFalseForms()
    ensures !BooleanLiteral("false") && !BooleanLiteral("f") && !BooleanLiteral("FALSE")
    ensures BooleanLiteral("T") && BooleanLiteral("True")
  {
    BooleanLiteralSpelling("false");
    BooleanLiteralSpelling("f");
    BooleanLiteralSpelling("FALSE");
    BooleanLiteralSpelling("T");
    BooleanLiteralSpelling("True");
  }

  /** The Unicode comparison glyphs written as their ASCII operators; every other operator passes through. */
  function NormalizeComparison(op: string): (r: string)
    ensures op == "≤" ==> r == "<="
    ensures op == "≥" ==> r == ">="
    ensures op == "≠" ==> r == "!="
    ensures op !in {"≤", "≥", "≠"} ==> r == op
  {
    if op == "≤" then "<=" else if op == "≥" then ">=" else if op == "≠" then "!=" else op
  }

  /** Normalising never yields a glyph, so normalising twice changes nothing. */
  lemma NormalizeComparisonIdempotent(op: string)
    ensures NormalizeComparison(op) !in {"≤", "≥", "≠"}
    ensures NormalizeComparison(NormalizeComparison(op)) == NormalizeComparison(op)
  {
  }

  /** comp_op: `=` when there is no child, else the normalised text of the operator child. */
  function CompOp(items: seq<Item>): (r: Result<string>)
    ensures |items| == 0 ==> r == Ok("=")
    ensures |items| > 0 ==> (r.Ok? <==> items[0].Tok? || items[0].StrItem?)
    ensures |items| > 0 && items[0].Tok? ==> r == Ok(NormalizeComparison(items[0].text))
    ensures r.Ok? ==> r.value !in {"≤", "≥", "≠"}
  {
    if |items| == 0 then Ok("=")
    else match OperatorText(items[0])
      case Ok(op) => Ok(NormalizeComparison(op))
      case Err(e) => Err(e)
  }

  /** The comment marker glyph. */
  const Marker: char := '►'

  /**
   * comment: the token text stripped of surrounding whitespace; when it then
   * starts with the marker, exactly that one marker goes and the rest is
   * stripped again (a second marker stays).
   */
  function CommentText(text: string): (r: string)
    ensures |r| <= |text|
    ensures r == [] || (!IsSpace(r[0]) && !IsSpace(r[|r| - 1]))
    ensures var t := Strip(text); (t == [] || t[0] != Marker) ==> r == t
    ensures var t := Strip(text); t != [] && t[0] == Marker ==> exists lo :: Trimmed(t[1..], lo, r)
  {
    var t := Strip(text);
    if |t| > 0 && t[0] == Marker then Strip(t[1..]) else t
  }

  /** Clean words: no whitespace at either end. */
  predicate Clean(w: string)
  {
    w == [] || (!IsSpace(w[0]) && !IsSpace(w[|w| - 1]))
  }

  /** A marker right before clean words leaves exactly those words; when they start with a marker, that second marker stays. */
  lemma MarkedComment(w: string)
    requires Clean(w)
    ensures CommentText([Marker] + w) == w
  {
    var u := [Marker] + w;
    assert Trimmed(u, 0, u);
    TrimmedIsStrip(u, 0, u);
    assert u[1..] == w;
    assert Trimmed(w, 0, w);
    TrimmedIsStrip(w, 0, w);
  }

  /** A marker and a blank before clean words also leave exactly those words. */
  lemma SpacedMarkedComment(w: string)
    requires Clean(w)
    ensures CommentText([Marker, ' '] + w) == w
  {
    if w == [] {
      SpacedMarkerAlone();
      assert [Marker, ' '] + w == [Marker, ' '];
    } else {
      SpacedMarkedWords(w);
    }
  }

  lemma SpacedMarkerAlone()
    ensures CommentText([Marker, ' ']) == []
  {
    var v := [Marker, ' '];
    assert Trimmed(v, 0, [Marker]);
    TrimmedIsStrip(v, 0, [Marker]);
    assert [Marker][1..] == [];
  }

  lemma SpacedMarkedWords(w: string)
    requires w != [] && !IsSpace(w[0]) && !IsSpace(w[|w| - 1])
    ensures CommentText([Marker, ' '] + w) == w
  {
    var v := [Marker, ' '] + w;
    assert Trimmed(v, 0, v);
    TrimmedIsStrip(v, 0, v);
    var rest := [' '] + w;
    assert v[1..] == rest && rest[1..] == w;
    assert Trimmed(rest, 1, w);
    TrimmedIsStrip(rest, 1, w);
  }

  /** A comment keeps its words and loses the marker and the surrounding blanks. */
  lemma CommentExample()
    ensures CommentText(" ► ok ") == "ok"
  {
    var raw := " ► ok ";
    var t := [Marker, ' '] + "ok";
    assert raw[1..5] == t;
    assert Trimmed(raw, 1, t);
    TrimmedIsStrip(raw, 1, t);
    var rest := " ok";
    assert t[1..] == rest && rest[1..] == "ok";
    assert Trimmed(rest, 1, "ok");
    TrimmedIsStrip(rest, 1, "ok");
  }

  /** NULL: the null literal, whatever the token text. */
  function NullLiteral(token: Item): (r: Expr)
    ensures r.Null?
  {
    Null
  }
}
