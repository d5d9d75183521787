/** The finishing permutation of the expression hash and its accumulation of components. */
module ExpressionHash {
  // ---------------------------------------------------------------- the byte table

  /** The 256-entry permutation table, sixteen entries to a row. */
  function Permuted(i: bv8): bv8 {
    var c := i & 15;
    match i >> 4
    case 0 => (match c case 0 => 148 case 1 => 201 case 2 => 203 case 3 => 34 case 4 => 85 case 5 => 225 case 6 => 163 case 7 => 200
              case 8 => 174 case 9 => 137 case 10 => 51 case 11 => 24 case 12 => 19 case 13 => 252 case 14 => 107 case _ => 173)
    case 1 => (match c case 0 => 110 case 1 => 251 case 2 => 149 case 3 => 69 case 4 => 180 case 5 => 152 case 6 => 141 case 7 => 132
              case 8 => 22 case 9 => 20 case 10 => 147 case 11 => 219 case 12 => 37 case 13 => 46 case 14 => 154 case _ => 114)
    case 2 => (match c case 0 => 59 case 1 => 49 case 2 => 155 case 3 => 161 case 4 => 239 case 5 => 77 case 6 => 47 case 7 => 10
              case 8 => 70 case 9 => 227 case 10 => 53 case 11 => 235 case 12 => 30 case 13 => 188 case 14 => 143 case _ => 73)
    case 3 => (match c case 0 => 88 case 1 => 193 case 2 => 214 case 3 => 194 case 4 => 18 case 5 => 120 case 6 => 176 case 7 => 36
              case 8 => 212 case 9 => 84 case 10 => 211 case 11 => 142 case 12 => 167 case 13 => 57 case 14 => 153 case _ => 71)
    case 4 => (match c case 0 => 159 case 1 => 151 case 2 => 126 case 3 => 115 case 4 => 229 case 5 => 124 case 6 => 172 case 7 => 101
              case 8 => 79 case 9 => 183 case 10 => 32 case 11 => 38 case 12 => 68 case 13 => 11 case 14 => 67 case _ => 109)
    case 5 => (match c case 0 => 221 case 1 => 3 case 2 => 4 case 3 => 61 case 4 => 122 case 5 => 94 case 6 => 72 case 7 => 117
              case 8 => 12 case 9 => 240 case 10 => 199 case 11 => 76 case 12 => 118 case 13 => 5 case 14 => 48 case _ => 197)
    case 6 => (match c case 0 => 128 case 1 => 62 case 2 => 119 case 3 => 89 case 4 => 14 case 5 => 45 case 6 => 226 case 7 => 195
              case 8 => 80 case 9 => 50 case 10 => 40 case 11 => 192 case 12 => 60 case 13 => 65 case 14 => 166 case _ => 106)
    case 7 => (match c case 0 => 90 case 1 => 215 case 2 => 213 case 3 => 232 case 4 => 250 case 5 => 207 case 6 => 104 case 7 => 52
              case 8 => 182 case 9 => 29 case 10 => 157 case 11 => 103 case 12 => 242 case 13 => 97 case 14 => 111 case _ => 17)
    case 8 => (match c case 0 => 8 case 1 => 175 case 2 => 254 case 3 => 108 case 4 => 208 case 5 => 224 case 6 => 191 case 7 => 112
              case 8 => 105 case 9 => 187 case 10 => 43 case 11 => 56 case 12 => 185 case 13 => 243 case 14 => 196 case _ => 156)
    case 9 => (match c case 0 => 246 case 1 => 249 case 2 => 184 case 3 => 7 case 4 => 135 case 5 => 6 case 6 => 158 case 7 => 82
              case 8 => 130 case 9 => 234 case 10 => 206 case 11 => 255 case 12 => 160 case 13 => 236 case 14 => 171 case _ => 230)
    case 10 => (match c case 0 => 42 case 1 => 98 case 2 => 54 case 3 => 74 case 4 => 209 case 5 => 205 case 6 => 33 case 7 => 177
              case 8 => 15 case 9 => 138 case 10 => 178 case 11 => 44 case 12 => 116 case 13 => 96 case 14 => 140 case _ => 253)
    case 11 => (match c case 0 => 233 case 1 => 125 case 2 => 21 case 3 => 133 case 4 => 136 case 5 => 86 case 6 => 245 case 7 => 58
              case 8 => 23 case 9 => 1 case 10 => 75 case 11 => 165 case 12 => 92 case 13 => 217 case 14 => 39 case _ => 0)
    case 12 => (match c case 0 => 218 case 1 => 91 case 2 => 179 case 3 => 55 case 4 => 238 case 5 => 170 case 6 => 134 case 7 => 83
              case 8 => 25 case 9 => 189 case 10 => 216 case 11 => 100 case 12 => 129 case 13 => 150 case 14 => 241 case _ => 210)
    case 13 => (match c case 0 => 123 case 1 => 99 case 2 => 2 case 3 => 164 case 4 => 16 case 5 => 220 case 6 => 121 case 7 => 139
              case 8 => 168 case 9 => 64 case 10 => 190 case 11 => 9 case 12 => 31 case 13 => 228 case 14 => 95 case _ => 247)
    case 14 => (match c case 0 => 244 case 1 => 81 case 2 => 102 case 3 => 145 case 4 => 204 case 5 => 146 case 6 => 26 case 7 => 87
              case 8 => 113 case 9 => 198 case 10 => 181 case 11 => 127 case 12 => 237 case 13 => 169 case 14 => 28 case _ => 93)
    case _ => (match c case 0 => 27 case 1 => 41 case 2 => 231 case 3 => 248 case 4 => 78 case 5 => 162 case 6 => 13 case 7 => 186
              case 8 => 63 case 9 => 66 case 10 => 131 case 11 => 202 case 12 => 35 case 13 => 144 case 14 => 222 case _ => 223)
  }

  /** Where each byte stands in the table. */
  function Unpermuted(i: bv8): bv8 {
    var c := i & 15;
    match i >> 4
    case 0 => (match c case 0 => 191 case 1 => 185 case 2 => 210 case 3 => 81 case 4 => 82 case 5 => 93 case 6 => 149 case 7 => 147
              case 8 => 128 case 9 => 219 case 10 => 39 case 11 => 77 case 12 => 88 case 13 => 246 case 14 => 100 case _ => 168)
    case 1 => (match c case 0 => 212 case 1 => 127 case 2 => 52 case 3 => 12 case 4 => 25 case 5 => 178 case 6 => 24 case 7 => 184
              case 8 => 11 case 9 => 200 case 10 => 230 case 11 => 240 case 12 => 238 case 13 => 121 case 14 => 44 case _ => 220)
    case 2 => (match c case 0 => 74 case 1 => 166 case 2 => 3 case 3 => 252 case 4 => 55 case 5 => 28 case 6 => 75 case 7 => 190
              case 8 => 106 case 9 => 241 case 10 => 160 case 11 => 138 case 12 => 171 case 13 => 101 case 14 => 29 case _ => 38)
    case 3 => (match c case 0 => 94 case 1 => 33 case 2 => 105 case 3 => 10 case 4 => 119 case 5 => 42 case 6 => 162 case 7 => 195
              case 8 => 139 case 9 => 61 case 10 => 183 case 11 => 32 case 12 => 108 case 13 => 83 case 14 => 97 case _ => 248)
    case 4 => (match c case 0 => 217 case 1 => 109 case 2 => 249 case 3 => 78 case 4 => 76 case 5 => 19 case 6 => 40 case 7 => 63
              case 8 => 86 case 9 => 47 case 10 => 163 case 11 => 186 case 12 => 91 case 13 => 37 case 14 => 244 case _ => 72)
    case 5 => (match c case 0 => 104 case 1 => 225 case 2 => 151 case 3 => 199 case 4 => 57 case 5 => 4 case 6 => 181 case 7 => 231
              case 8 => 48 case 9 => 99 case 10 => 112 case 11 => 193 case 12 => 188 case 13 => 239 case 14 => 85 case _ => 222)
    case 6 => (match c case 0 => 173 case 1 => 125 case 2 => 161 case 3 => 209 case 4 => 203 case 5 => 71 case 6 => 226 case 7 => 123
              case 8 => 118 case 9 => 136 case 10 => 111 case 11 => 14 case 12 => 131 case 13 => 79 case 14 => 16 case _ => 126)
    case 7 => (match c case 0 => 135 case 1 => 232 case 2 => 31 case 3 => 67 case 4 => 172 case 5 => 87 case 6 => 92 case 7 => 98
              case 8 => 53 case 9 => 214 case 10 => 84 case 11 => 208 case 12 => 69 case 13 => 177 case 14 => 66 case _ => 235)
    case 8 => (match c case 0 => 96 case 1 => 204 case 2 => 152 case 3 => 250 case 4 => 23 case 5 => 179 case 6 => 198 case 7 => 148
              case 8 => 180 case 9 => 9 case 10 => 169 case 11 => 215 case 12 => 174 case 13 => 22 case 14 => 59 case _ => 46)
    case 9 => (match c case 0 => 253 case 1 => 227 case 2 => 229 case 3 => 26 case 4 => 0 case 5 => 18 case 6 => 205 case 7 => 65
              case 8 => 21 case 9 => 62 case 10 => 30 case 11 => 34 case 12 => 143 case 13 => 122 case 14 => 150 case _ => 64)
    case 10 => (match c case 0 => 156 case 1 => 35 case 2 => 245 case 3 => 6 case 4 => 211 case 5 => 187 case 6 => 110 case 7 => 60
              case 8 => 216 case 9 => 237 case 10 => 197 case 11 => 158 case 12 => 70 case 13 => 15 case 14 => 8 case _ => 129)
    case 11 => (match c case 0 => 54 case 1 => 167 case 2 => 170 case 3 => 194 case 4 => 20 case 5 => 234 case 6 => 120 case 7 => 73
              case 8 => 146 case 9 => 140 case 10 => 247 case 11 => 137 case 12 => 45 case 13 => 201 case 14 => 218 case _ => 134)
    case 12 => (match c case 0 => 107 case 1 => 49 case 2 => 51 case 3 => 103 case 4 => 142 case 5 => 95 case 6 => 233 case 7 => 90
              case 8 => 7 case 9 => 1 case 10 => 251 case 11 => 2 case 12 => 228 case 13 => 165 case 14 => 154 case _ => 117)
    case 13 => (match c case 0 => 132 case 1 => 164 case 2 => 207 case 3 => 58 case 4 => 56 case 5 => 114 case 6 => 50 case 7 => 113
              case 8 => 202 case 9 => 189 case 10 => 192 case 11 => 27 case 12 => 213 case 13 => 80 case 14 => 254 case _ => 255)
    case 14 => (match c case 0 => 133 case 1 => 5 case 2 => 102 case 3 => 41 case 4 => 221 case 5 => 68 case 6 => 159 case 7 => 242
              case 8 => 115 case 9 => 176 case 10 => 153 case 11 => 43 case 12 => 157 case 13 => 236 case 14 => 196 case _ => 36)
    case _ => (match c case 0 => 89 case 1 => 206 case 2 => 124 case 3 => 141 case 4 => 224 case 5 => 182 case 6 => 144 case 7 => 223
              case 8 => 243 case 9 => 145 case 10 => 116 case 11 => 17 case 12 => 13 case 13 => 175 case 14 => 130 case _ => 155)
  }

  lemma TableInverse(x: bv8)
    ensures Unpermuted(Permuted(x)) == x
  {
  }

  lemma InverseTable(x: bv8)
    ensures Permuted(Unpermuted(x)) == x
  {
  }

  // ---------------------------------------------------------------- the xor-shift steps

  function RightXor11(s: bv32): bv32 { s ^ (s >> 11) }

  function LeftXor7(s: bv32): bv32 { s ^ ((s << 7) & 0x9d2c5680) }

  function LeftXor15(s: bv32): bv32 { s ^ ((s << 15) & 0xefc60000) }

  function RightXor18(s: bv32): bv32 { s ^ (s >> 18) }

  /** The four steps in order. */
  function Tempered(s: bv32): bv32 { RightXor18(LeftXor15(LeftXor7(RightXor11(s)))) }

  function UndoRight11(s: bv32): bv32 { s ^ (s >> 11) ^ (s >> 22) }

  /** Each pass recovers seven more low bits. */
  function UndoLeft7(s: bv32): bv32 {
    var a := s ^ ((s << 7) & 0x9d2c5680);
    var b := s ^ ((a << 7) & 0x9d2c5680);
    var c := s ^ ((b << 7) & 0x9d2c5680);
    s ^ ((c << 7) & 0x9d2c5680)
  }

  function UndoLeft15(s: bv32): bv32 {
    var a := s ^ ((s << 15) & 0xefc60000);
    s ^ ((a << 15) & 0xefc60000)
  }

  function Untempered(s: bv32): bv32 { UndoRight11(UndoLeft7(UndoLeft15(RightXor18(s)))) }

  lemma Shift11(s: bv32)
    ensures (s ^ (s >> 11)) ^ ((s ^ (s >> 11)) >> 11) ^ ((s ^ (s >> 11)) >> 22) == s
    ensures (s ^ (s >> 11) ^ (s >> 22)) ^ ((s ^ (s >> 11) ^ (s >> 22)) >> 11) == s
  {
  }

  lemma Undo11(s: bv32)
    ensures UndoRight11(RightXor11(s)) == s && RightXor11(UndoRight11(s)) == s
  {
    Shift11(s);
    assert RightXor11(s) == s ^ (s >> 11);
    assert UndoRight11(s) == s ^ (s >> 11) ^ (s >> 22);
  }

  lemma Undo7(s: bv32)
    ensures UndoLeft7(LeftXor7(s)) == s && LeftXor7(UndoLeft7(s)) == s
  {
  }

  lemma Undo15(s: bv32)
    ensures UndoLeft15(LeftXor15(s)) == s && LeftXor15(UndoLeft15(s)) == s
  {
  }

  lemma Shift18(s: bv32)
    ensures (s ^ (s >> 18)) ^ ((s ^ (s >> 18)) >> 18) == s
  {
  }

  lemma Undo18(s: bv32)
    ensures RightXor18(RightXor18(s)) == s
  {
    Shift18(s);
    assert RightXor18(s) == s ^ (s >> 18);
  }

  lemma TemperInverse(s: bv32)
    ensures Untempered(Tempered(s)) == s && Tempered(Untempered(s)) == s
  {
    var a := RightXor11(s);
    var b := LeftXor7(a);
    Undo11(s);
    Undo7(a);
    Undo15(b);
    Undo18(LeftXor15(b));
    var d := UndoLeft15(RightXor18(s));
    var e := UndoLeft7(d);
    Undo18(s);
    Undo15(RightXor18(s));
    Undo7(d);
    Undo11(e);
    hide RightXor11, LeftXor7, LeftXor15, RightXor18, UndoRight11, UndoLeft7, UndoLeft15;
  }

  // ---------------------------------------------------------------- the chained byte lookups

  /** The low byte of a word. */
  function Low(s: bv32): bv8 { (s & 0xff) as bv8 }

  function Shift8(s: bv32): bv32 { s >> 8 }

  function Shift16(s: bv32): bv32 { s >> 16 }

  function Shift24(s: bv32): bv32 { s >> 24 }

  /** The bytes of a word above the lowest, from the low end. */
  function Byte1(s: bv32): bv8 { Low(Shift8(s)) }

  function Byte2(s: bv32): bv8 { Low(Shift16(s)) }

  function Byte3(s: bv32): bv8 { Low(Shift24(s)) }

  function Joined(b0: bv8, b1: bv8, b2: bv8, b3: bv8): bv32 {
    (b0 as bv32) | ((b1 as bv32) << 8) | ((b2 as bv32) << 16) | ((b3 as bv32) << 24)
  }

  function Plus(a: bv8, b: bv8): bv8 { a + b }

  function Minus(a: bv8, b: bv8): bv8 { a - b }

  lemma JoinParts(b0: bv8, b1: bv8, b2: bv8, b3: bv8)
    ensures var s := Joined(b0, b1, b2, b3);
      Low(s) == b0 && Byte1(s) == b1 && Byte2(s) == b2 && Byte3(s) == b3
  {
  }

  lemma PartsJoin(s: bv32)
    ensures Joined(Low(s), Byte1(s), Byte2(s), Byte3(s)) == s
  {
  }

  /** Each looked-up byte shifts the next lookup, and the bytes come out in reverse order. */
  function Scrambled(s: bv32): bv32 {
    var b3 := Permuted(Low(s));
    var b2 := Permuted(Plus(Byte1(s), b3));
    var b1 := Permuted(Plus(Byte2(s), b2));
    var b0 := Permuted(Plus(Byte3(s), b1));
    Joined(b0, b1, b2, b3)
  }

  /** Undoes the lookups byte by byte, from the high byte down. */
  function Unscrambled(r: bv32): bv32 {
    var b0, b1, b2, b3 := Low(r), Byte1(r), Byte2(r), Byte3(r);
    Joined(Unpermuted(b3), Minus(Unpermuted(b2), b3), Minus(Unpermuted(b1), b2), Minus(Unpermuted(b0), b1))
  }

  /** The byte looked up next: a shifted word plus the byte before it, masked. */
  function MaskedSum(s: bv32, b: bv8): bv8 { ((s + (b as bv32)) & 0xff) as bv8 }

  /** Masking the word sum adds the bytes modulo 256. */
  lemma MaskedSumAdds(s: bv32, b: bv8)
    ensures MaskedSum(s, b) == Plus(Low(s), b)
  {
  }

  lemma Cancel(a: bv8, b: bv8)
    ensures Minus(Plus(a, b), b) == a && Plus(Minus(a, b), b) == a
  {
  }

  lemma ScrambleInverse(s: bv32)
    ensures Unscrambled(Scrambled(s)) == s
  {
    hide Permuted, Unpermuted, Low, Joined, Plus, Minus, Byte1, Byte2, Byte3, MaskedSum;
    var b3 := Permuted(Low(s));
    var b2 := Permuted(Plus(Byte1(s), b3));
    var b1 := Permuted(Plus(Byte2(s), b2));
    var b0 := Permuted(Plus(Byte3(s), b1));
    JoinParts(b0, b1, b2, b3);
    TableInverse(Low(s));
    TableInverse(Plus(Byte1(s), b3));
    TableInverse(Plus(Byte2(s), b2));
    TableInverse(Plus(Byte3(s), b1));
    Cancel(Byte1(s), b3);
    Cancel(Byte2(s), b2);
    Cancel(Byte3(s), b1);
    PartsJoin(s);
  }

  lemma InverseScramble(r: bv32)
    ensures Scrambled(Unscrambled(r)) == r
  {
    hide Permuted, Unpermuted, Low, Joined, Plus, Minus, Byte1, Byte2, Byte3, MaskedSum;
    var b0, b1, b2, b3 := Low(r), Byte1(r), Byte2(r), Byte3(r);
    JoinParts(Unpermuted(b3), Minus(Unpermuted(b2), b3), Minus(Unpermuted(b1), b2), Minus(Unpermuted(b0), b1));
    InverseTable(b3);
    InverseTable(b2);
    InverseTable(b1);
    InverseTable(b0);
    Cancel(Unpermuted(b2), b3);
    Cancel(Unpermuted(b1), b2);
    Cancel(Unpermuted(b0), b1);
    PartsJoin(r);
  }

  // ---------------------------------------------------------------- the whole hash

  function Finished(s: bv32): bv32 { Scrambled(Tempered(s)) }

  function Unfinished(r: bv32): bv32 { Untempered(Unscrambled(r)) }

  /** Finishing is a bijection on 32-bit words. */
  lemma FinishIsBijection(s: bv32)
    ensures Unfinished(Finished(s)) == s && Finished(Unfinished(s)) == s
  {
    hide Scrambled, Unscrambled, Tempered, Untempered;
    ScrambleInverse(Tempered(s));
    TemperInverse(s);
    InverseScramble(s);
    TemperInverse(Unscrambled(s));
  }

  method HashFinish(input: bv32) returns (result: bv32)
    ensures result == Finished(input)
  {
    hide Permuted, Low, Shift8, Shift16, Shift24, Joined, Plus, MaskedSum, RightXor11, LeftXor7, LeftXor15, RightXor18;
    var state := input;
    state := RightXor11(state);
    state := LeftXor7(state);
    state := LeftXor15(state);
    state := RightXor18(state);
    var b3 := Permuted(Low(state));
    var b2 := Permuted(MaskedSum(Shift8(state), b3));
    MaskedSumAdds(Shift8(state), b3);
    var b1 := Permuted(MaskedSum(Shift16(state), b2));
    MaskedSumAdds(Shift16(state), b2);
    var b0 := Permuted(MaskedSum(Shift24(state), b1));
    MaskedSumAdds(Shift24(state), b1);
    result := Joined(b0, b1, b2, b3);
  }

  function Scaled(state: bv32): bv32 { state * 1664525 }

  function Offset(scaled: bv32, component: bv32): bv32 { scaled + component + 1013904223 }

  /** One step of the accumulation. */
  function Stepped(state: bv32, component: bv32): bv32 {
    Offset(Scaled(state), component)
  }

  /** The state after accumulating the components onto a state. */
  function Accumulated(state: bv32, components: seq<bv32>): bv32 {
    if components == [] then state
    else Stepped(Accumulated(state, components[..|components| - 1]), components[|components| - 1])
  }

  method HashPrefix(components: seq<bv32>) returns (state: bv32)
    ensures state == Accumulated(0, components)
  {
    hide Stepped;
    state := 0;
    for k := 0 to |components|
      invariant state == Accumulated(0, components[..k])
    {
      assert components[..k + 1][..k] == components[..k];
      state := Stepped(state, components[k]);
    }
    assert components[..|components|] == components;
  }

  /** The multiplier is odd, so a step of the accumulation can be undone. */
  lemma StepUndone(s: bv32, t: bv32, c: bv32)
    requires Stepped(s, c) == Stepped(t, c)
    ensures s == t
  {
    hide Scaled, Offset;
    OffsetsDiffer(Scaled(s), Scaled(t), c);
    ScaledDiffer(s, t);
  }

  /** Scaling by an odd number loses nothing: the difference of two equal products is a product that is zero. */
  lemma ScaledDiffer(s: bv32, t: bv32)
    requires Scaled(s) == Scaled(t)
    ensures s == t
  {
    hide Scaled, Moved, Distance;
    SameProduct(s, Distance(t, s));
    NotMoved(s);
  }

  function Moved(s: bv32, d: bv32): bv32 { s + d }

  /** How far t is from s. */
  function Distance(t: bv32, s: bv32): (d: bv32)
    ensures Moved(s, d) == t
  {
    assert s + (t - s) == t;
    t - s
  }

  lemma NotMoved(s: bv32)
    ensures Moved(s, 0) == s
  {
  }

  lemma SameProduct(s: bv32, d: bv32)
    requires Scaled(s) == Scaled(Moved(s, d))
    ensures d == 0
  {
    assert Moved(s, d) == s + d;
    ProductZero(s, d);
  }

  lemma ProductZero(s: bv32, d: bv32)
    requires Scaled(s) == Scaled(s + d)
    ensures d == 0
  {
  }

  function Remainder(sum: bv32, part: bv32): bv32 { sum - part - 1013904223 }

  lemma OffsetUndone(m: bv32, c: bv32)
    ensures Remainder(Offset(m, c), c) == m && Remainder(Offset(m, c), m) == c
  {
  }

  lemma OffsetsDiffer(m: bv32, n: bv32, c: bv32)
    ensures m != n ==> Offset(m, c) != Offset(n, c) && Offset(c, m) != Offset(c, n)
  {
    hide Offset, Remainder;
    OffsetUndone(m, c);
    OffsetUndone(n, c);
    OffsetUndone(c, m);
    OffsetUndone(c, n);
  }

  lemma {:induction false} AccumulateInjective(s: bv32, t: bv32, components: seq<bv32>)
    requires Accumulated(s, components) == Accumulated(t, components)
    ensures s == t
  {
    hide Stepped;
    if components != [] {
      var init := components[..|components| - 1];
      StepUndone(Accumulated(s, init), Accumulated(t, init), components[|components| - 1]);
      AccumulateInjective(s, t, init);
    }
  }

  lemma {:induction false} AccumulateSplit(s: bv32, a: seq<bv32>, b: seq<bv32>)
    ensures Accumulated(s, a + b) == Accumulated(Accumulated(s, a), b)
  {
    hide Stepped;
    if b == [] {
      assert a + b == a;
    } else {
      assert (a + b)[..|a + b| - 1] == a + b[..|b| - 1];
      AccumulateSplit(s, a, b[..|b| - 1]);
    }
  }

  /** Two argument lists that differ in exactly one component never hash to the same word. */
  lemma HashSeparates(before: seq<bv32>, x: bv32, y: bv32, after: seq<bv32>)
    requires x != y
    ensures Finished(Accumulated(0, before + [x] + after)) != Finished(Accumulated(0, before + [y] + after))
  {
    hide Finished, Unfinished, Stepped;
    AccumulateSplit(0, before + [x], after);
    AccumulateSplit(0, before + [y], after);
    var s, t := Accumulated(0, before + [x]), Accumulated(0, before + [y]);
    assert (before + [x])[..|before|] == before && (before + [y])[..|before|] == before;
    DifferentStep(Accumulated(0, before), x, y);
    if Accumulated(s, after) == Accumulated(t, after) { AccumulateInjective(s, t, after); }
    FinishIsBijection(Accumulated(s, after));
    FinishIsBijection(Accumulated(t, after));
  }

  lemma DifferentStep(s: bv32, x: bv32, y: bv32)
    requires x != y
    ensures Stepped(s, x) != Stepped(s, y)
  {
    hide Scaled, Offset;
    OffsetsDiffer(x, y, Scaled(s));
  }

  /**
   The calibration value: the component of 1 alone hashes to a word whose share of 2^32 - 1 is 0.40419923151009696.
   */
  lemma HashCalibrated()
    ensures Finished(Accumulated(0, [0x88a2_c05d])) == 0x6779_99d0
    ensures -0.000001 < 0x6779_99d0 as real - 0.40419923151009696 * 4294967295.0 < 0.000001
  {
    assert [0x88a2_c05d as bv32][..0] == [];
    assert Stepped(0, 0x88a2_c05d) == 0xc511_b3bc;
    CalibratedTemper();
    CalibratedScramble();
  }

  lemma CalibratedTemper()
    ensures Tempered(0xc511_b3bc) == 0xebc5_6f7b
  {
    assert RightXor11(0xc511_b3bc) == 0xc509_118a;
    assert LeftXor7(0xc509_118a) == 0x4101_558a;
    assert LeftXor15(0x4101_558a) == 0xebc5_558a;
    assert RightXor18(0xebc5_558a) == 0xebc5_6f7b;
  }

  lemma CalibratedScramble()
    ensures Scrambled(0xebc5_6f7b) == 0x6779_99d0
  {
    var s: bv32 := 0xebc5_6f7b;
    assert Low(s) == 0x7b && Byte1(s) == 0x6f && Byte2(s) == 0xc5 && Byte3(s) == 0xeb;
    assert Permuted(0x7b) == 103;
    assert Plus(0x6f, 103) == 0xd6 && Permuted(0xd6) == 121;
    assert Plus(0xc5, 121) == 0x3e && Permuted(0x3e) == 153;
    assert Plus(0xeb, 153) == 0x84 && Permuted(0x84) == 208;
    assert Joined(208, 153, 121, 103) == 0x6779_99d0;
  }
}
