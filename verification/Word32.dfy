/** Arithmetic on words of 32 bits. */
module Word32 {

  type Word = bv32

  /** Addition modulo 2 to the 32. */
  function Add(x: Word, y: Word): Word {
    x + y
  }

  lemma AddAssocBits(a: Word, b: Word, c: Word)
    ensures a + (b + c) == (a + b) + c
  {
  }

  lemma AddAssoc(a: Word, b: Word, c: Word)
    ensures Add(a, Add(b, c)) == Add(Add(a, b), c)
  {
    calc {
      Add(a, Add(b, c));
      a + Add(b, c);
      a + (b + c);
      { AddAssocBits(a, b, c); }
      (a + b) + c;
      Add(a, b) + c;
      Add(Add(a, b), c);
    }
  }

  lemma AddComm(a: Word, b: Word)
    ensures Add(a, b) == Add(b, a)
  {
  }
}
