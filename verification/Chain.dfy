/**
 * Content addressing: prompts are cut into token blocks whose ids form a hash chain. The hash is an arbitrary
 * function to 32 bytes; nothing here takes it to be injective.
 */
module Chain {
  import opened BlockTypes

  const WORD: int := 0x1_0000_0000

  newtype Token = x: int | 0 <= x < 0x1_0000_0000

  type Hash = seq<byte> -> BlockId

  ghost predicate Sized(sha: Hash) {
    forall x {:trigger sha(x)} :: |sha(x)| == HASH_SIZE
  }

  /** Four bytes, big-endian. */
  function Bytes(n: nat): (b: seq<byte>)
    requires n < WORD
    ensures |b| == 4
  {
    [(n / 256 / 256 / 256) as byte, (n / 256 / 256 % 256) as byte, (n / 256 % 256) as byte, (n % 256) as byte]
  }

  function Word(a: byte, b: byte, c: byte, d: byte): (w: nat)
    ensures w < WORD
  {
    ((a as nat * 256 + b as nat) * 256 + c as nat) * 256 + d as nat
  }

  lemma Split(q: nat, r: nat)
    requires r < 256
    ensures (q * 256 + r) / 256 == q && (q * 256 + r) % 256 == r
  {
  }

  lemma WordBytes(a: byte, b: byte, c: byte, d: byte)
    ensures Bytes(Word(a, b, c, d)) == [a, b, c, d]
  {
    var x := a as nat * 256 + b as nat;
    var y := x * 256 + c as nat;
    Split(y, d as nat);
    Split(x, c as nat);
    Split(a as nat, b as nat);
  }

  lemma BytesGiveBack(n: nat)
    requires n < WORD
    ensures var b := Bytes(n); n == Word(b[0], b[1], b[2], b[3])
  {
  }

  /** The four bytes spell the number, most significant first. */
  ghost predicate Spells(b: seq<byte>, n: nat) {
    |b| == 4 && n == b[0] as nat * 16777216 + b[1] as nat * 65536 + b[2] as nat * 256 + b[3] as nat
  }

  lemma BytesSpell(n: nat)
    requires n < WORD
    ensures Spells(Bytes(n), n)
  {
    BytesGiveBack(n);
  }

  lemma BytesInjective(m: nat, n: nat)
    requires m < WORD && n < WORD && Bytes(m) == Bytes(n)
    ensures m == n
  {
    BytesGiveBack(m);
    BytesGiveBack(n);
  }

  function Encode(tokens: seq<Token>): (b: seq<byte>)
    ensures |b| == 4 * |tokens|
  {
    if tokens == [] then [] else Encode(tokens[..|tokens| - 1]) + Bytes(tokens[|tokens| - 1] as nat)
  }

  /** Token i is spelled by the four bytes from 4 * i on. */
  lemma {:induction false} EncodeSpells(tokens: seq<Token>, i: nat)
    requires i < |tokens|
    ensures Spells(Encode(tokens)[4 * i..4 * i + 4], tokens[i] as nat)
  {
    var n := |tokens| - 1;
    var before, word := Encode(tokens[..n]), Bytes(tokens[n] as nat);
    if i == n {
      BytesSpell(tokens[n] as nat);
      assert (before + word)[4 * i..4 * i + 4] == word;
    } else {
      EncodeSpells(tokens[..n], i);
      assert (before + word)[4 * i..4 * i + 4] == before[4 * i..4 * i + 4];
    }
  }

  lemma {:induction false} EncodeInjective(s: seq<Token>, t: seq<Token>)
    requires Encode(s) == Encode(t)
    ensures s == t
  {
    if s == [] || t == [] {
    } else {
      var s', t' := s[..|s| - 1], t[..|t| - 1];
      var x, y := s[|s| - 1], t[|t| - 1];
      Tails(Encode(s'), Bytes(x as nat), Encode(t'), Bytes(y as nat));
      BytesInjective(x as nat, y as nat);
      EncodeInjective(s', t');
      assert s == s' + [x] && t == t' + [y];
    }
  }

  lemma Tails(a: seq<byte>, b: seq<byte>, c: seq<byte>, d: seq<byte>)
    requires a + b == c + d && |b| == |d|
    ensures a == c && b == d
  {
    assert a == (a + b)[..|a|] && b == (a + b)[|a|..];
    assert c == (c + d)[..|c|] && d == (c + d)[|c|..];
  }

  // ----- roots and steps -----

  function RootInput(model: seq<byte>, blockSize: int): seq<byte> {
    model + Bytes(blockSize % WORD)
  }

  function Root(sha: Hash, model: seq<byte>, blockSize: int): BlockId {
    sha(RootInput(model, blockSize))
  }

  function StepInput(parent: BlockId, tokens: seq<Token>): seq<byte> {
    parent + Encode(tokens)
  }

  /** A root hashes the model name followed by the block size as four bytes; a larger size is cut to 32 bits. */
  lemma RootHashes(model: seq<byte>, blockSize: int)
    ensures var input := RootInput(model, blockSize);
      |input| == |model| + 4 && input[..|model|] == model && Spells(input[|model|..], blockSize % 0x1_0000_0000)
  {
    BytesSpell(blockSize % WORD);
    assert RootInput(model, blockSize)[|model|..] == Bytes(blockSize % WORD);
  }

  /** A step hashes the parent id followed by four bytes for each token, in order. */
  ghost predicate ParentThenTokens(input: seq<byte>, parent: BlockId, tokens: seq<Token>) {
    && |input| == |parent| + 4 * |tokens| && input[..|parent|] == parent
    && forall i :: 0 <= i < |tokens| ==> Spells(input[|parent|..][4 * i..4 * i + 4], tokens[i] as nat)
  }

  lemma StepHashes(parent: BlockId, tokens: seq<Token>)
    ensures ParentThenTokens(StepInput(parent, tokens), parent, tokens)
  {
    assert StepInput(parent, tokens)[|parent|..] == Encode(tokens);
    forall i | 0 <= i < |tokens|
      ensures Spells(Encode(tokens)[4 * i..4 * i + 4], tokens[i] as nat)
    {
      EncodeSpells(tokens, i);
    }
  }

  /** Next feeds the parent and then each token to the hash. */
  method Next(sha: Hash, parent: BlockId, tokens: seq<Token>) returns (id: BlockId)
    ensures id == sha(StepInput(parent, tokens)) && ParentThenTokens(StepInput(parent, tokens), parent, tokens)
  {
    var fed := parent;
    for i := 0 to |tokens|
      invariant fed == StepInput(parent, tokens[..i])
    {
      assert tokens[..i + 1][..i] == tokens[..i];
      fed := fed + Bytes(tokens[i] as nat);
    }
    assert tokens[..|tokens|] == tokens;
    StepHashes(parent, tokens);
    id := sha(fed);
  }

  // ----- blocks -----

  /** Full blocks first, then what is left. */
  function Blocks(tokens: seq<Token>, blockSize: int): seq<seq<Token>>
    requires blockSize > 0
    decreases |tokens|
  {
    if tokens == [] then []
    else if |tokens| <= blockSize then [tokens]
    else [tokens[..blockSize]] + Blocks(tokens[blockSize..], blockSize)
  }

  function Flatten(blocks: seq<seq<Token>>): seq<Token> {
    if blocks == [] then [] else blocks[0] + Flatten(blocks[1..])
  }

  lemma FlattenCons(first: seq<Token>, rest: seq<seq<Token>>)
    ensures Flatten([first] + rest) == first + Flatten(rest)
  {
    assert ([first] + rest)[1..] == rest;
  }

  /** Nothing is lost, added or reordered. */
  lemma {:induction false} BlocksFlatten(tokens: seq<Token>, blockSize: int)
    requires blockSize > 0
    ensures Flatten(Blocks(tokens, blockSize)) == tokens
    decreases |tokens|
  {
    if |tokens| > blockSize {
      var first, rest := tokens[..blockSize], tokens[blockSize..];
      BlocksFlatten(rest, blockSize);
      FlattenCons(first, Blocks(rest, blockSize));
      assert tokens == first + rest;
    } else if tokens != [] {
      FlattenCons(tokens, []);
      assert [tokens] + [] == [tokens] && tokens + [] == tokens;
    }
  }

  /** No block is empty, and all but the last are full. */
  lemma {:induction false} BlocksFull(tokens: seq<Token>, blockSize: int, i: nat)
    requires blockSize > 0 && i < |Blocks(tokens, blockSize)|
    ensures 0 < |Blocks(tokens, blockSize)[i]| <= blockSize
    ensures i < |Blocks(tokens, blockSize)| - 1 ==> |Blocks(tokens, blockSize)[i]| == blockSize
    decreases |tokens|
  {
    if |tokens| <= blockSize || i == 0 {
    } else {
      BlocksFull(tokens[blockSize..], blockSize, i - 1);
    }
  }

  lemma FirstBlock(tokens: seq<Token>, blockSize: int, start: nat, end: nat)
    requires blockSize > 0 && start < |tokens|
    requires end == if start + blockSize < |tokens| then start + blockSize else |tokens|
    ensures Blocks(tokens[start..], blockSize) == [tokens[start..end]] + Blocks(tokens[end..], blockSize)
  {
    var rest := tokens[start..];
    if end < |tokens| {
      assert rest[..blockSize] == tokens[start..end];
      assert rest[blockSize..] == tokens[end..];
    } else {
      assert rest == tokens[start..end];
      assert Blocks(tokens[end..], blockSize) == [];
    }
  }

  method Chunk(tokens: seq<Token>, blockSize: int) returns (out: seq<seq<Token>>)
    requires blockSize > 0
    ensures out == Blocks(tokens, blockSize)
  {
    out := [];
    var start := 0;
    while start < |tokens|
      invariant 0 <= start
      invariant out + Blocks(if start <= |tokens| then tokens[start..] else [], blockSize) == Blocks(tokens, blockSize)
    {
      var end := if start + blockSize < |tokens| then start + blockSize else |tokens|;
      FirstBlock(tokens, blockSize, start, end);
      out := out + [tokens[start..end]];
      start := start + blockSize;
    }
  }

  /** The id of block i. */
  function IdAt(sha: Hash, root: BlockId, blocks: seq<seq<Token>>, i: nat): BlockId
    requires i < |blocks|
  {
    sha(StepInput(ParentAt(sha, root, blocks, i), blocks[i]))
  }

  function ParentAt(sha: Hash, root: BlockId, blocks: seq<seq<Token>>, i: nat): BlockId
    requires i <= |blocks|
  {
    if i == 0 then root else sha(StepInput(ParentAt(sha, root, blocks, i - 1), blocks[i - 1]))
  }

  method Build(sha: Hash, model: seq<byte>, blockSize: int, tokens: seq<Token>) returns (ids: seq<BlockId>)
    requires blockSize > 0
    ensures |ids| == |Blocks(tokens, blockSize)|
    ensures forall i :: 0 <= i < |ids| ==>
      ids[i] == IdAt(sha, Root(sha, model, blockSize), Blocks(tokens, blockSize), i)
    ensures forall i :: 0 <= i < |ids| ==>
      var parent := if i == 0 then sha(RootInput(model, blockSize)) else ids[i - 1];
      ids[i] == sha(StepInput(parent, Blocks(tokens, blockSize)[i]))
  {
    var root := Root(sha, model, blockSize);
    var parent := root;
    var blocks := Chunk(tokens, blockSize);
    ids := [];
    for i := 0 to |blocks|
      invariant |ids| == i && parent == ParentAt(sha, root, blocks, i)
      invariant forall j :: 0 <= j < i ==> ids[j] == IdAt(sha, root, blocks, j)
    {
      parent := Next(sha, parent, blocks[i]);
      ids := ids + [parent];
    }
  }

  // ----- equal prefixes have equal ids -----

  lemma {:induction false} SharedBlocks(s: seq<Token>, t: seq<Token>, blockSize: int, k: nat, n: nat)
    requires blockSize > 0 && n == k * blockSize && n <= |s| && n <= |t| && s[..n] == t[..n]
    ensures k <= |Blocks(s, blockSize)| && k <= |Blocks(t, blockSize)|
    ensures Blocks(s, blockSize)[..k] == Blocks(t, blockSize)[..k]
    decreases k
  {
    if k == 0 {
    } else {
      assert n - blockSize == (k - 1) * blockSize && n >= blockSize;
      CutFirst(s, blockSize);
      CutFirst(t, blockSize);
      assert s[..blockSize] == s[..n][..blockSize] == t[..blockSize];
      assert s[blockSize..][..n - blockSize] == s[..n][blockSize..] == t[blockSize..][..n - blockSize];
      SharedBlocks(s[blockSize..], t[blockSize..], blockSize, k - 1, n - blockSize);
      var a, b := Blocks(s[blockSize..], blockSize), Blocks(t[blockSize..], blockSize);
      assert Blocks(s, blockSize)[..k] == [s[..blockSize]] + a[..k - 1];
      assert Blocks(t, blockSize)[..k] == [t[..blockSize]] + b[..k - 1];
    }
  }

  lemma CutFirst(s: seq<Token>, blockSize: int)
    requires 0 < blockSize <= |s|
    ensures Blocks(s, blockSize) == [s[..blockSize]] + Blocks(s[blockSize..], blockSize)
  {
    assert |s| == blockSize ==> s[..blockSize] == s && s[blockSize..] == [];
  }

  /** Only the root and the blocks up to there enter an id. */
  lemma {:induction false} SameBlocksSameId(sha: Hash, root: BlockId, a: seq<seq<Token>>, b: seq<seq<Token>>, i: nat)
    requires i <= |a| && i <= |b| && a[..i] == b[..i]
    ensures ParentAt(sha, root, a, i) == ParentAt(sha, root, b, i)
  {
    if i == 0 {
    } else {
      assert a[..i - 1] == a[..i][..i - 1] == b[..i - 1];
      assert a[i - 1] == a[..i][i - 1] == b[i - 1];
      SameBlocksSameId(sha, root, a, b, i - 1);
    }
  }

  /** Prompts that share their first k full blocks share their first k ids. */
  lemma SharedPrefixSharesIds(sha: Hash, model: seq<byte>, blockSize: int, s: seq<Token>, t: seq<Token>, k: nat, i: nat)
    requires blockSize > 0 && i < k && k * blockSize <= |s| && k * blockSize <= |t|
    requires s[..k * blockSize] == t[..k * blockSize]
    ensures i < |Blocks(s, blockSize)| && i < |Blocks(t, blockSize)|
    ensures IdAt(sha, Root(sha, model, blockSize), Blocks(s, blockSize), i)
         == IdAt(sha, Root(sha, model, blockSize), Blocks(t, blockSize), i)
  {
    SharedBlocks(s, t, blockSize, k, k * blockSize);
    var a, b := Blocks(s, blockSize), Blocks(t, blockSize);
    assert a[..i + 1] == a[..k][..i + 1] == b[..i + 1];
    SameBlocksSameId(sha, Root(sha, model, blockSize), a, b, i + 1);
  }

  // ----- equal ids come from equal prefixes, or show a hash collision -----

  ghost predicate Collision(sha: Hash, x: seq<byte>, y: seq<byte>) {
    x != y && sha(x) == sha(y)
  }

  lemma RootInputInjective(m: seq<byte>, size: int, m': seq<byte>, size': int)
    requires RootInput(m, size) == RootInput(m', size')
    ensures m == m' && size % WORD == size' % WORD
  {
    Tails(m, Bytes(size % WORD), m', Bytes(size' % WORD));
    BytesInjective(size % WORD, size' % WORD);
  }

  lemma StepInputInjective(p: BlockId, s: seq<Token>, p': BlockId, s': seq<Token>)
    requires |p| == |p'| && StepInput(p, s) == StepInput(p', s')
    ensures p == p' && s == s'
  {
    assert p == StepInput(p, s)[..|p|] && Encode(s) == StepInput(p, s)[|p|..];
    assert p' == StepInput(p', s')[..|p'|] && Encode(s') == StepInput(p', s')[|p'|..];
    EncodeInjective(s, s');
  }

  /** What makes two prompts one up to block i: same model, same block size as 32-bit words, same blocks. */
  ghost predicate SameHistory(m: seq<byte>, size: int, a: seq<seq<Token>>,
                              m': seq<byte>, size': int, b: seq<seq<Token>>, i: nat)
    requires i <= |a| && i <= |b|
  {
    m == m' && size % WORD == size' % WORD && a[..i] == b[..i]
  }

  /** Equal parents at one position: the same history, or two different inputs with the same hash. */
  lemma {:induction false} EqualParents(sha: Hash, m: seq<byte>, size: int, a: seq<seq<Token>>,
                                        m': seq<byte>, size': int, b: seq<seq<Token>>, i: nat)
      returns (x: seq<byte>, y: seq<byte>)
    requires Sized(sha) && i <= |a| && i <= |b|
    requires ParentAt(sha, Root(sha, m, size), a, i) == ParentAt(sha, Root(sha, m', size'), b, i)
    ensures SameHistory(m, size, a, m', size', b, i) || Collision(sha, x, y)
  {
    if i == 0 {
      x, y := RootInput(m, size), RootInput(m', size');
      if x == y {
        RootInputInjective(m, size, m', size');
      }
    } else {
      var p, p' := ParentAt(sha, Root(sha, m, size), a, i - 1), ParentAt(sha, Root(sha, m', size'), b, i - 1);
      x, y := StepInput(p, a[i - 1]), StepInput(p', b[i - 1]);
      if x == y {
        StepInputInjective(p, a[i - 1], p', b[i - 1]);
        x, y := EqualParents(sha, m, size, a, m', size', b, i - 1);
        assert a[..i] == a[..i - 1] + [a[i - 1]] && b[..i] == b[..i - 1] + [b[i - 1]];
      }
    }
  }

  /** Build results that agree at one position have the same history up to there, or exhibit a collision. */
  lemma EqualIds(sha: Hash, m: seq<byte>, size: int, s: seq<Token>, m': seq<byte>, size': int, t: seq<Token>, i: nat)
      returns (x: seq<byte>, y: seq<byte>)
    requires Sized(sha) && size > 0 && size' > 0
    requires i < |Blocks(s, size)| && i < |Blocks(t, size')|
    requires IdAt(sha, Root(sha, m, size), Blocks(s, size), i) == IdAt(sha, Root(sha, m', size'), Blocks(t, size'), i)
    ensures SameHistory(m, size, Blocks(s, size), m', size', Blocks(t, size'), i + 1) || Collision(sha, x, y)
  {
    x, y := EqualParents(sha, m, size, Blocks(s, size), m', size', Blocks(t, size'), i + 1);
  }

  // ----- different positions -----

  /** Model names that no step input can imitate. */
  predicate Plain(m: seq<byte>) {
    |m| < HASH_SIZE || |m| % 4 != 0
  }

  ghost predicate IsStepInput(p: BlockId, s: seq<Token>, input: seq<byte>) {
    |p| == HASH_SIZE && s != [] && StepInput(p, s) == input
  }

  lemma LongNameReads(m: seq<byte>, size: int) returns (p: BlockId, s: seq<Token>)
    requires |m| >= HASH_SIZE && |m| % 4 == 0
    ensures IsStepInput(p, s, RootInput(m, size))
  {
    p := m[..HASH_SIZE];
    var word := Bytes(size % WORD);
    var rest := m[HASH_SIZE..] + word;
    s := Decode(rest);
    DecodeEncodes(rest);
    assert p + (m[HASH_SIZE..] + word) == m + word;
  }

  /** A root's input also reads as a parent followed by tokens exactly when the model name is long and aligned. */
  lemma RootReadsAsStep(m: seq<byte>, size: int)
    ensures (exists p: BlockId, s: seq<Token> :: IsStepInput(p, s, RootInput(m, size))) <==> !Plain(m)
  {
    if !Plain(m) {
      var p, s := LongNameReads(m, size);
    }
    if p: BlockId, s: seq<Token> :| IsStepInput(p, s, RootInput(m, size)) {
      assert |m| + 4 == HASH_SIZE + 4 * |s|;
    }
  }

  function Decode(b: seq<byte>): (s: seq<Token>)
    requires |b| % 4 == 0
    ensures 4 * |s| == |b|
  {
    if b == [] then []
    else
      var n := |b| - 4;
      Decode(b[..n]) + [Word(b[n], b[n + 1], b[n + 2], b[n + 3]) as Token]
  }

  lemma {:induction false} DecodeEncodes(b: seq<byte>)
    requires |b| % 4 == 0
    ensures Encode(Decode(b)) == b
  {
    if b == [] {
    } else {
      var n := |b| - 4;
      DecodeEncodes(b[..n]);
      EncodeNext(Decode(b[..n]), b[n], b[n + 1], b[n + 2], b[n + 3]);
      assert b[..n] + [b[n], b[n + 1], b[n + 2], b[n + 3]] == b;
    }
  }

  lemma EncodeNext(s: seq<Token>, a: byte, b: byte, c: byte, d: byte)
    ensures Encode(s + [Word(a, b, c, d) as Token]) == Encode(s) + [a, b, c, d]
  {
    var t := Word(a, b, c, d) as Token;
    assert (s + [t])[..|s|] == s;
    WordBytes(a, b, c, d);
  }

  ghost predicate NoneEmpty(blocks: seq<seq<Token>>) {
    forall k :: 0 <= k < |blocks| ==> |blocks[k]| > 0
  }

  lemma {:induction false} ParentsDiffer(sha: Hash, m: seq<byte>, size: int, a: seq<seq<Token>>, i: nat,
                                         m': seq<byte>, size': int, b: seq<seq<Token>>, j: nat)
      returns (x: seq<byte>, y: seq<byte>)
    requires Sized(sha) && Plain(m) && i < j && i <= |a| && j <= |b| && NoneEmpty(b)
    requires ParentAt(sha, Root(sha, m, size), a, i) == ParentAt(sha, Root(sha, m', size'), b, j)
    ensures Collision(sha, x, y)
  {
    var p' := ParentAt(sha, Root(sha, m', size'), b, j - 1);
    y := StepInput(p', b[j - 1]);
    if i == 0 {
      x := RootInput(m, size);
      RootReadsAsStep(m, size);
      assert IsStepInput(p', b[j - 1], y);
    } else {
      var p := ParentAt(sha, Root(sha, m, size), a, i - 1);
      x := StepInput(p, a[i - 1]);
      if x == y {
        StepInputInjective(p, a[i - 1], p', b[j - 1]);
        x, y := ParentsDiffer(sha, m, size, a, i - 1, m', size', b, j - 1);
      }
    }
  }

  lemma {:induction false} ParentsIdentify(sha: Hash, m: seq<byte>, size: int, a: seq<seq<Token>>, i: nat,
                                           m': seq<byte>, size': int, b: seq<seq<Token>>, j: nat)
      returns (x: seq<byte>, y: seq<byte>)
    requires Sized(sha) && Plain(m) && Plain(m') && NoneEmpty(a) && NoneEmpty(b) && i <= |a| && j <= |b|
    requires ParentAt(sha, Root(sha, m, size), a, i) == ParentAt(sha, Root(sha, m', size'), b, j)
    ensures (i == j && SameHistory(m, size, a, m', size', b, i)) || Collision(sha, x, y)
  {
    if i == j {
      x, y := EqualParents(sha, m, size, a, m', size', b, i);
    } else if i < j {
      x, y := ParentsDiffer(sha, m, size, a, i, m', size', b, j);
    } else {
      x, y := ParentsDiffer(sha, m', size', b, j, m, size, a, i);
    }
  }

  lemma NoBlockEmpty(tokens: seq<Token>, blockSize: int)
    requires blockSize > 0
    ensures NoneEmpty(Blocks(tokens, blockSize))
  {
    forall k: nat | k < |Blocks(tokens, blockSize)|
      ensures |Blocks(tokens, blockSize)[k]| > 0
    {
      BlocksFull(tokens, blockSize, k);
    }
  }

  /**
   * For plain model names an id determines its position, model, block size and prefix, unless the hash collides:
   * equal ids anywhere in two chains come from the same position and history, or exhibit a collision.
   */
  lemma {:induction false} IdsIdentify(sha: Hash, m: seq<byte>, size: int, s: seq<Token>, i: nat,
                                       m': seq<byte>, size': int, t: seq<Token>, j: nat)
      returns (x: seq<byte>, y: seq<byte>)
    requires Sized(sha) && size > 0 && size' > 0 && Plain(m) && Plain(m')
    requires i < |Blocks(s, size)| && j < |Blocks(t, size')|
    requires IdAt(sha, Root(sha, m, size), Blocks(s, size), i) == IdAt(sha, Root(sha, m', size'), Blocks(t, size'), j)
    ensures
      || (i == j && SameHistory(m, size, Blocks(s, size), m', size', Blocks(t, size'), i + 1))
      || Collision(sha, x, y)
  {
    var a, b := Blocks(s, size), Blocks(t, size');
    assert NoneEmpty(a) by { NoBlockEmpty(s, size); }
    assert NoneEmpty(b) by { NoBlockEmpty(t, size'); }
    x, y := ParentsIdentify(sha, m, size, a, i + 1, m', size', b, j + 1);
  }

  lemma TwoBlocks(s: seq<Token>, t: seq<Token>, size: nat)
    requires 0 < |s| == size && 0 < |t| <= size
    ensures Blocks(s + t, size) == [s, t]
  {
    assert (s + t)[..size] == s && (s + t)[size..] == t;
  }

  /** A name spelled as a root followed by tokens, and a size read off the last token, start where block s ends. */
  lemma NameAfterBlock(sha: Hash, p: BlockId, s: seq<Token>) returns (m: seq<byte>, size: nat)
    requires Sized(sha) && |p| == HASH_SIZE && s != [] && s[|s| - 1] > 0
    ensures !Plain(m) && size == s[|s| - 1] as nat && Root(sha, m, size) == sha(StepInput(p, s))
  {
    m := p + Encode(s[..|s| - 1]);
    size := s[|s| - 1] as nat;
    assert size % WORD == size;
    assert RootInput(m, size) == p + (Encode(s[..|s| - 1]) + Bytes(size));
  }

  /**
   * For other names ids do meet, whatever the hash: after any full block s under a plain name whose last token is not
   * zero, the second block has the id of a first block under another model.
   */
  lemma LongNameMeetsOtherChain(sha: Hash, m: seq<byte>, size: nat, s: seq<Token>, t: seq<Token>)
      returns (m': seq<byte>, size': nat)
    requires Sized(sha) && Plain(m) && 0 < |s| == size && s[size - 1] > 0
    requires 0 < |t| <= size && |t| <= s[size - 1] as nat
    ensures m' != m && !Plain(m') && size' > 0 && |Blocks(s + t, size)| == 2 && |Blocks(t, size')| == 1
    ensures IdAt(sha, Root(sha, m', size'), Blocks(t, size'), 0)
         == IdAt(sha, Root(sha, m, size), Blocks(s + t, size), 1)
  {
    var p := Root(sha, m, size);
    m', size' := NameAfterBlock(sha, p, s);
    TwoBlocks(s, t, size);
    assert ParentAt(sha, p, [s, t], 1) == sha(StepInput(ParentAt(sha, p, [s, t], 0), s));
  }
}
