/** The character classes of the parser, told in characters and held against the grammars of the RFCs. */
module HttpTables {
  import opened Bytes
  import opened HttpTypes
  import opened Url

  predicate Letter(c: byte) {
    'a' as int <= c <= 'z' as int || 'A' as int <= c <= 'Z' as int
  }

  predicate Digit(c: byte) {
    '0' as int <= c <= '9' as int
  }

  predicate Visible(c: byte) {
    '!' as int <= c <= '~' as int
  }

  /** The byte is one of these characters. */
  predicate OneOf(c: byte, s: string) {
    exists i :: 0 <= i < |s| && s[i] as int == c
  }

  /** The codes of characters. */
  function Codes(s: string): seq<int> {
    seq(|s|, i requires 0 <= i < |s| => s[i] as int)
  }

  lemma OneOfCodes(c: byte, s: string)
    ensures OneOf(c, s) <==> c in Codes(s)
  {
    if OneOf(c, s) {
      var i :| 0 <= i < |s| && s[i] as int == c;
      assert Codes(s)[i] == c;
    }
    if c in Codes(s) {
      var i :| 0 <= i < |Codes(s)| && Codes(s)[i] == c;
      assert s[i] as int == c;
    }
  }

  /** A letter is recognised in any case, and in lower case it is the small one. */
  lemma Letters(c: byte)
    ensures IsAlpha(c) <==> Letter(c)
    ensures IsNum(c) <==> Digit(c)
    ensures IsHex(c) <==> Digit(c) || 'a' as int <= c <= 'f' as int || 'A' as int <= c <= 'F' as int
    ensures Letter(c) ==> Lower(c) == if c <= 'Z' as int then c + 32 else c
  {}

  /** `c | 0x20` sets the bit of weight 32 and leaves the others alone. */
  lemma LowerBits(c: byte, i: nat)
    requires i < 8
    ensures Bit(Lower(c), i) <==> i == 5 || Bit(c, i)
  {
    assert Pow2(5) == 32;
    if c / 32 % 2 == 0 {
      SetBit(c, 5, i);
    }
  }

  lemma Doubles(j: nat)
    requires j > 0
    ensures Pow2(j) == 2 * Pow2(j - 1)
  {}

  lemma {:induction false} SetBit(c: nat, j: nat, i: nat)
    requires !Bit(c, j)
    ensures Bit(c + Pow2(j), i) <==> i == j || Bit(c, i)
  {
    hide Bit, Pow2;
    LowBit(c);
    LowBit(c + Pow2(j));
    if i > 0 {
      NextBit(c, i);
      NextBit(c + Pow2(j), i);
    }
    if j == 0 {
      One();
    } else {
      Doubles(j);
      NextBit(c, j);
      assert (c + Pow2(j)) / 2 == c / 2 + Pow2(j - 1);
      if i > 0 {
        SetBit(c / 2, j - 1, i - 1);
      }
    }
  }

  lemma One()
    ensures Pow2(0) == 1
  {}

  /** The table `tokens` has the characters of a token, section 3.2.6 of RFC 7230, its letters in lower case. */
  lemma TokenChars(c: byte)
    ensures TokenOf(c) != 0 <==> Letter(c) || Digit(c) || OneOf(c, "!#$%&'*+-.^_`|~")
    ensures TokenOf(c) != 0 ==> TokenOf(c) == if 'A' as int <= c <= 'Z' as int then c + 32 else c
  {
    OneOfCodes(c, "!#$%&'*+-.^_`|~");
    assert Codes("!#$%&'*+-.^_`|~") == [33, 35, 36, 37, 38, 39, 42, 43, 45, 46, 94, 95, 96, 124, 126];
  }

  /** The table `normal_url_char` has the visible characters but the two that end a path. */
  lemma UrlChars(c: byte)
    ensures IsUrlChar(c) <==> Visible(c) && !OneOf(c, "#?")
  {
    OneOfCodes(c, "#?");
    assert Codes("#?") == [35, 63];
  }

  /** Within a line a header value may have any visible character, byte above 127, space or tab, section 3.2 of RFC 7230. */
  lemma HeaderChars(c: byte)
    ensures IsHeaderChar(c) && c != CR && c != LF <==> Visible(c) || c >= 128 || OneOf(c, " \t")
  {
    OneOfCodes(c, " \t");
    assert Codes(" \t") == [32, 9];
  }

  /** Userinfo: unreserved characters, those of escapes, sub-delimiters and colons, section 3.2.1 of RFC 3986. */
  lemma UserinfoChars(c: byte)
    ensures IsUserinfoChar(c) <==> Letter(c) || Digit(c) || OneOf(c, "-._~%!$&'()*+,;=:")
  {
    OneOfCodes(c, "-._~%!$&'()*+,;=:");
    assert Codes("-._~%!$&'()*+,;=:") == [45, 46, 95, 126, 37, 33, 36, 38, 39, 40, 41, 42, 43, 44, 59, 61, 58];
  }

  /** Hosts: letters, digits, hyphens and dots; an address in brackets; its zone identifier. */
  lemma HostChars(c: byte)
    ensures IsHostChar(c) <==> Letter(c) || Digit(c) || OneOf(c, "-.")
    ensures V6Char(c) <==> Digit(c) || OneOf(c, "abcdefABCDEF:.")
    ensures ZoneChar(c) <==> Letter(c) || Digit(c) || OneOf(c, "-._~%")
  {
    OneOfCodes(c, "-.");
    OneOfCodes(c, "abcdefABCDEF:.");
    OneOfCodes(c, "-._~%");
    assert Codes("-.") == [45, 46] && Codes("-._~%") == [45, 46, 95, 126, 37];
    assert Codes("abcdefABCDEF:.") == [97, 98, 99, 100, 101, 102, 65, 66, 67, 68, 69, 70, 58, 46];
  }
}
