# ha-miniminer: proof-of-work nonce search, modelled in Dafny

The miner takes a challenge made of a difficulty and an ordered block of
`(label, value)` entries. It looks for the smallest nonce whose payload hashes
to a SHA-256 digest that starts with `difficulty` zero bits. The payload is
`{"data":[["<label>",<value>],...],"nonce":<n>}`. This project models the
three pure pieces of `main.go` and the loop that combines them:

- `format.dfy`, module `Format`: the two Go fmt verbs involved. `%d` renders
  the nonce and `%08b` renders each digest byte. Each rendering has an
  inverse (`DecimalValue`, `BinaryValue`) and a round-trip lemma. `Bit` gives
  the arithmetic meaning of one binary digit.
- `payload.dfy`, module `Payload`: `constructPayload`. `Canonical` is the
  reference form: an opening, the entries joined by commas, the nonce key,
  the decimal nonce and a closing brace. `ConstructPayload` is the source's
  loop, with its special case that drops the comma after the last entry. It
  is proved to build exactly `Canonical`.
- `bitcheck.dfy`, module `BitCheck`: `CheckBitHash`. `BitString` is the
  256-character string of `%08b` renderings. `Scan` is the loop over its
  first `difficulty` characters. `LeadingZeroBits` is the reference
  predicate: bit `7 - i%8` of byte `i/8` is zero for every `i < difficulty`.
  Reading past the end of the string is a Go panic. It is the outcome
  `IndexPanic(256, 256)`, not a boolean.
- `miner.dfy`, module `Miner`: `getNonce`, a linear search from 0 in steps
  of 1. SHA-256 is a parameter `hash: string -> Digest`, so the search is
  verified for every hash function. A ghost nonce that solves the challenge
  gives the termination measure.

Two behaviours of the code differ from what strict JSON or a total bit check
would give; the model follows the code:

- Values are written with `%v` and are not quoted. The entries
  `[("a", 1), ("b", "x")]` with nonce 0 give
  `{"data":[["a",1],["b",x]],"nonce":0}`, not `["b","x"]`
  (`Payload.TwoEntryExample`).
- A difficulty above 256 does not simply return false. If a one bit appears
  among the first 256, the check returns false. Otherwise Go indexes
  `bits[256]` and panics. `BitCheck.CheckBitHash` states both cases, and
  `BitCheck.ZeroDigestOutcomes` shows the panic for the all-zero digest at
  difficulty 257.

## Model

| member | source | states |
|---|---|---|
| Format.Decimal | main.go:138 | `%d` of a nonce is a non-empty string of digits; it starts with '0' only for zero, and then it is exactly one character long |
| Format.DecimalRoundTrip | main.go:138 | reading the decimal rendering back gives the nonce |
| Format.DecimalInjective | main.go:138 | two nonces render the same only when they are equal |
| Format.Binary | main.go:153 | `%08b` of a byte: exactly `width` characters, each '0' or '1', least significant bit last |
| Format.BinaryDigit | main.go:152-154 | character j of the 8-wide `%08b` rendering is bit 7-j of the byte, so the most significant bit comes first |
| Format.BinaryRoundTrip | main.go:153 | for a value below 2^width, the rendering uses only '0' and '1' and reads back as the value |
| Format.ZeroIffNoBitSet | main.go:153-161 | a byte is zero exactly when none of its 8 bits is set |
| BitCheck.BitString | main.go:151-154 | the bit string has 8 characters per byte, 256 for a digest |
| BitCheck.BitStringSpellsBits | main.go:151-154 | character i of the bit string is '0' or '1' according to bit 7 - i%8 of byte i/8 |
| BitCheck.Scan | main.go:156-162 | the loop returns true iff every inspected character up to the difficulty is '0' and the string is long enough; it panics at index len(bits) iff the difficulty goes past the end and every character before the end is '0'; otherwise it returns false |
| BitCheck.CheckBitHash | main.go:150-163 | returns true iff the difficulty is at most 256 and the first `difficulty` bits are zero; panics at index 256 iff the difficulty is above 256 and all 256 bits are zero; otherwise returns false |
| BitCheck.CheckVacuous | main.go:156-162 | a difficulty of zero or less passes for every digest |
| BitCheck.CheckMonotone | main.go:156-161 | passing a difficulty implies passing every smaller difficulty |
| BitCheck.CheckFullIffZero | main.go:151-161 | difficulty 256 passes exactly when all 32 digest bytes are zero |
| BitCheck.ZeroDigestOutcomes | main.go:151-161 | the all-zero digest passes difficulty 8, and difficulty 257 panics at index 256 instead of returning false |
| Payload.RenderEntry | main.go:131-133 | `["%s",%v]` of an entry: starts with `["` and ends with `]`, and its length is the label's plus the value's plus the five fixed characters |
| Payload.RenderEntryParts | main.go:131-133 | the rendering splits back into `["`, the label verbatim, `",`, the value verbatim and `]`; fields after index 1 play no part |
| Payload.RenderAll | main.go:129-135 | one rendered entry per input entry, in input order, each `["<label>",<value>]` |
| Payload.ConstructPayload | main.go:125-141 | the loop with its last-entry special case builds exactly the opening, the entries joined by single commas with none after the last, `],"nonce":`, the decimal nonce and `}` |
| Payload.LoopStep | main.go:129-135 | one turn of the loop, appending entry i with a comma unless it is the last, extends the text written to the first i + 1 entries followed by a comma while entries remain |
| Payload.JoinStep | main.go:130-135 | appending one entry adds a comma before it exactly when entries came before it |
| Payload.JoinAppend | main.go:129-136 | the joined entries of two non-empty lists are the two joins with exactly one comma between them, so input order is kept |
| Payload.ConcatenatedData | main.go:127-138 | the payload of two non-empty blocks one after the other holds the first block's entries, exactly one comma, then the second block's entries |
| Payload.EmptyData | main.go:127-138 | empty data gives `{"data":[],"nonce":N}` |
| Payload.SingleEntry | main.go:129-138 | a single entry is written with no comma inside the array |
| Payload.ExtraFieldsIgnored | main.go:131-133 | fields after index 1 of an entry do not affect its rendering |
| Payload.TextValueUnquoted | main.go:131-133 | a text value is inserted verbatim, without quotes |
| Payload.TwoEntryExample | main.go:125-141 | `[("a",1),("b","x")]` with nonce 0 gives `{"data":[["a",1],["b",x]],"nonce":0}` |
| Payload.NonceOnlyInTail | main.go:138 | for fixed data, every payload is one shared head ending in `"nonce":`, then the decimal nonce, then `}` |
| Payload.NonceInjective | main.go:138 | for fixed data, distinct nonces give distinct payloads |
| Miner.GetNonce | main.go:64-89 | the returned nonce passes the check on the hash of its payload, no smaller nonce passes, it is never past a known solving nonce, and it is 0 when the difficulty is 0 or less |
| Miner.FirstSolutionUnique | main.go:64-89 | at most one nonce is the first to pass, so the search result is determined by the data, difficulty and hash |
| Miner.SolvesWithinDigest | main.go:156-161 | no nonce solves a difficulty above 256, so a search that returns had a difficulty of at most 256 |

## Left out

- HTTP fetch and submit, and JSON decoding of the challenge (`getChallengeData`, `submitNonce`, `main`). These are network I/O and Go library calls.
- `constructEndpoint`: environment-variable lookups and URL formatting.
- SHA-256 and hex encoding (`hashPayload`). The hash is a parameter of the search: any function from strings to 32-byte digests. UTF-8 encoding of the payload is part of that parameter. The hex string is only printed.
- Go's `%v` of JSON numbers. These are `float64` values after decoding, so printing them is floating-point rendering. A `Number` value carries its rendered text.
- Payload.Show: `%v` is modelled by definition. A decoded string prints as itself, and a number prints as the rendered text it carries. The visible effect, the value inserted into the entry without quotes, is proved by `Payload.RenderEntryParts` and `Payload.TextValueUnquoted`.
- Other JSON kinds (booleans, null, nested arrays or objects) as entry values. They would only change the rendered text of a value.
- Payload.ConstructPayload: requires every entry to have a text label and at least two fields. Go prints a number, boolean or null label with `%s` as an error marker such as `%!s(float64=1)`, and an array or object label in fmt's bracketed form. An entry with fewer than two fields makes Go panic with an index error. Neither case is modelled.
- Miner.GetNonce: requires a ghost nonce that solves the challenge. Without one, the Go loop runs forever, or panics when the difficulty is above 256 and some digest has 256 zero bits. Neither behaviour is modelled.
- Miner.GetNonce: the nonce is unbounded, so overflow of Go's `int` counter is not modelled.
- All console output (progress lines, per-bit printing in `CheckBitHash`).
- Label escaping: labels are written between quotes without escaping, as in the code. Labels that contain quotes are not treated specially.
