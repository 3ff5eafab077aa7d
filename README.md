# Line-prefix response parser of the particle-event classifier

`classify_event_with_claude` in `app.py` sends a particle-detector event to a
text-completion service. It asks for the answer in a fixed three-line layout
(`Classification: …`, `Confidence: …%`, `Reasoning: …`). It then reads the
reply back with a small line-prefix parser. This project models that parser
and proves what it does.

- `ResponseParser.ParseResponse` is the parser as the source runs it. It
  sets three variables to `None`, splits the reply on `'\n'`, and walks the
  lines in an `if`/`elif` chain that reassigns one variable per matching line.
  Its loop invariant ties it to `ResponseParser.Parse`, a left fold of
  `ResponseParser.Step` over the lines. The lemmas are about `Parse`.
- `PyStr` models the Python `str` operations the parser calls:
  `str.split` on one character, `startswith`, `replace(old, "")`, `strip()`
  and `int(str)`. It also defines three helpers used only by the proofs and
  by the round trip: `Join` (`str.join`), `Contains` (`in` on strings) and
  `IntToString` (`str(int)`).
- `ResponseParser.Render` is the output layout of the prompt (app.py lines
  32-34) with its placeholders filled in. `RoundTrip` proves that parsing a
  rendered reply gives back the three values.
- `ParserExamples` works through concrete replies: the well-formed reply, a
  non-numeric score, a score that is reset, a score that `int()` rejects
  because of a trailing 0x1C, and two effects of `replace` removing every
  copy of a prefix.

What the proofs establish, in the source's terms:

- Matching is exact, case-sensitive and anchored at column 0.
- The three prefixes can never match the same line, so the order of the
  `elif` chain never matters.
- A field comes from the LAST line that carries its prefix, and is `None`
  when no line does. For the label and the reasoning this is an
  if-and-only-if.
- A `Confidence:` line whose score does not parse sets the score back to
  `None`, even after a valid score. Scores are not range-checked.
- A line without a known prefix can be removed without changing anything.
- Labels and reasoning come back stripped and on one line.
- `replace` deletes every copy of the prefix, not only the leading one. So
  `Reasoning: see Reasoning: it` gives `see  it`. Deleting can also rebuild
  the prefix: `Reasoning:ReasReasoning:oning:` gives `Reasoning:`.

The prompt asks for "a confidence score (0-100%)" (app.py:24), but the
parser does not enforce that range. `int()` at app.py:60 keeps any integer,
so `150` and `-5` pass unchanged. `replace("%", "")` at app.py:58 deletes
every `%` in the line, not only a trailing one, and so does `ConfidenceOf`.

## Model

| member | source | states |
|---|---|---|
| `ResponseParser.ParseResponse` | app.py:49-70 | The loop returns exactly the fold of the per-line `if`/`elif` step over `text.split('\n')`, starting with all three fields `None`. |
| `ResponseParser.PrefixesExclusive` | app.py:55-63 | No line starts with two of `Classification:`, `Confidence:`, `Reasoning:`, so the `elif` order never decides which field a line sets. |
| `ResponseParser.StepSetsOneField` | app.py:55-64 | A line with one of the prefixes replaces only the field its prefix names. The other two fields keep their values. A line without a prefix changes nothing. |
| `ResponseParser.ClassificationAbsent` | app.py:49-56 | `classification` is `None` if and only if no line starts with `Classification:`. |
| `ResponseParser.ClassificationLastMatch` | app.py:54-56 | `classification` is the value of the last line that starts with `Classification:`. |
| `ResponseParser.ConfidenceAbsent` | app.py:50-62 | With no line starting with `Confidence:`, `confidence` is `None`. |
| `ResponseParser.ConfidenceLastMatch` | app.py:54-62 | `confidence` is what the last `Confidence:` line parses to, `None` included. An unparseable last line therefore wins over earlier valid ones. |
| `ResponseParser.ReasoningAbsent` | app.py:51-64 | `reasoning` is `None` if and only if no line starts with `Reasoning:`. |
| `ResponseParser.ReasoningLastMatch` | app.py:63-64 | `reasoning` is the value of the last line that starts with `Reasoning:`. |
| `ResponseParser.UnknownLineIgnored` | app.py:54-64 | Dropping a line without a known prefix from any position of the line list leaves all three fields unchanged. |
| `ResponseParser.UnknownTextLineIgnored` | app.py:53-64 | The same for the reply text: removing such a line between two others changes no field. |
| `ResponseParser.AnchoredAndCaseSensitive` | app.py:55-63 | A line that starts with whitespace or a lower-case letter has no known prefix. This covers an indented echo of the prompt's layout and `classification:`. |
| `ResponseParser.SingleLine` | app.py:53-64 | A one-line reply gives that line's step from the all-`None` start. |
| `ResponseParser.ConfidenceReset` | app.py:57-62 | Appending a `Confidence:` line whose score does not parse makes `confidence` `None`. The other two fields are unchanged. |
| `ResponseParser.ValuesAreTrimmedLines` | app.py:56-64 | For lines without line breaks, a returned label or reasoning has no whitespace at either end and no line break. |
| `ResponseParser.ParsedValuesTrimmed` | app.py:53-64 | For any reply text, a returned label or reasoning has no surrounding whitespace and no line break. |
| `ResponseParser.InnerCopiesRemoved` | app.py:64 | `replace` deletes every copy of `Reasoning:`. When the text between the two copies and the text after them contain no `R`, the result is those two texts joined. |
| `ResponseParser.PrefixBetween` | app.py:64 | A copy of `Reasoning:` between two texts without `R` is deleted, and the two texts are joined. |
| `ResponseParser.FieldLineValue` | app.py:55-56 | `prefix + " " + v` starts with the prefix and yields `v` back, if `v` is one trimmed line with no copy of the prefix. |
| `ResponseParser.ConfidenceLineScore` | app.py:57-62 | The line `Confidence: w%` scores exactly `int(w)`, for a `w` with no whitespace in front and no `%` or `C`. Whitespace at the end of `w` is not stripped, because the `%` still follows it when `strip()` runs. |
| `ResponseParser.ConfidenceLineValue` | app.py:57-62 | The line `Confidence: <n>%` scores `n`, for every integer `n`, negative ones included. Python's 4300-digit limit on `int()` is not modelled (see Left out). |
| `ResponseParser.SplitRender` | app.py:31-34 | A rendered reply splits into the three layout lines. |
| `ResponseParser.ParseLayoutLines` | app.py:53-70 | The three layout lines, in order, set the three fields from their own lines. |
| `ResponseParser.RoundTrip` | app.py:31-70 | Parsing `Classification: L\nConfidence: N%\nReasoning: R` gives `(L, N, R)`. This holds for any integer `N` (no 4300-digit limit, see Left out), and for `L` and `R` that are single trimmed lines with no copy of their own prefix. |
| `PyStr.Split` | app.py:53 | `split('\n')` gives one more piece than there are separators, and no piece holds a separator. |
| `PyStr.SplitAppend` | app.py:53 | Splitting `a + sep + b` is splitting `a` followed by splitting `b`. |
| `PyStr.JoinSplit` | app.py:53 | Joining the split pieces with the separator gives back the text. |
| `PyStr.SplitJoin` | app.py:53 | Splitting a join of separator-free pieces gives back the pieces. |
| `PyStr.SplitNoSeparator` | app.py:53 | A text without the separator splits into itself alone. |
| `PyStr.RemoveAll` | app.py:56 | `replace(p, "")` never lengthens the text or adds a character, and leaves a text with no occurrence of `p` unchanged. |
| `PyStr.RemoveAllPrefix` | app.py:56 | A leading occurrence of `p` is deleted and the rest is processed independently. |
| `PyStr.RemoveAllKeeps` | app.py:56 | Characters that cannot start an occurrence pass through `replace` unchanged. |
| `PyStr.TrimStartShape` | app.py:56 | `lstrip()` cuts only whitespace, from the front, and stops at a non-space. |
| `PyStr.TrimEndShape` | app.py:56 | `rstrip()` cuts only whitespace, from the back, and stops at a non-space. |
| `PyStr.Strip` | app.py:56 | `strip()` returns a slice of the input with whitespace only cut on each side, and has no whitespace at either end. |
| `PyStr.StripSurrounded` | app.py:58 | `strip()` ignores surrounding whitespace and is idempotent. |
| `PyStr.StripFixed` | app.py:64 | A text without surrounding whitespace is its own `strip()`. |
| `PyStr.ParseIntAccepts` | app.py:59-62 | `int()` succeeds exactly on an optional sign followed by ASCII digits, once the whitespace `int()` skips (tab to carriage return, and space) is cut away. Everything else is the `ValueError` branch, which gives `None`. |
| `PyStr.ParseIntOfIntToString` | app.py:60 | `int(str(n)) == n` for every integer, with no 4300-digit limit (see Left out). |
| `PyStr.ParseIntSurrounded` | app.py:60 | `int()` ignores tab-to-carriage-return and space around the literal. This matters for `87 %`, which still scores 87 once the `%` is gone. |
| `PyStr.IntStripSurrounded` | app.py:60 | The whitespace skip of `int()` ignores tab-to-carriage-return and space on either side. |
| `ParserExamples.WellFormedResponse` | app.py:53-70 | `Classification: WIMP\nConfidence: 87%\nReasoning: high recoil` gives `WIMP`, `87`, `high recoil`. |
| `ParserExamples.NonNumericConfidence` | app.py:58-62 | `Confidence: high%` is a score line whose score is `None`, not an exception. |
| `ParserExamples.ResetAfterValidScore` | app.py:57-62 | In `Confidence: 5%` followed by `Confidence: high%`, the second line sets the score back to `None`. |
| `ParserExamples.SeparatorBlocksScore` | app.py:58-62 | `Confidence: 87<0x1C>%` scores `None`. The `%` keeps `strip()` from removing the separator, and `int()` does not skip it. |
| `ParserExamples.ReplaceRemovesInnerCopies` | app.py:64 | `Reasoning: see Reasoning: it` gives the reasoning `see  it`. |
| `ParserExamples.PrefixCanReappear` | app.py:64 | `Reasoning:ReasReasoning:oning:` gives the reasoning `Reasoning:`, so a value can contain its own prefix. |

## Left out

- The service client and the call itself (app.py:20, 37-44) are network I/O through a library that is not part of this model.
- Reading the reply out of the service's response object (app.py:48) is not modelled. The parser takes the reply text as its input.
- `load_dotenv()` and printing the API key (app.py:5-6) are environment and console I/O.
- The prompt text and its `:.4f` formatting of the event fields (app.py:22-30) are floating-point formatting. Only the layout lines 31-34 are modelled, as `Render`.
- `Render` writes the layout lines without the four-space indentation they have inside the prompt string. A reply that echoed the indentation would match no prefix (`AnchoredAndCaseSensitive`).
- The `except Exception` handler (app.py:72-74) only catches failures of the service call and of reading its reply (app.py:48). The parser cannot raise, because `int()`'s `ValueError` is caught at app.py:61. The model is total, and `None` stands for that caught error.
- The `__main__` demo (app.py:76-87) is hard-coded input and printing.
- `strip()` uses only ASCII whitespace: tab to carriage return, 0x1C-0x1F, and space. `int()` skips only tab to carriage return, and space. Python also skips other Unicode whitespace in both.
- `int()` accepts only ASCII digits after an optional sign. Python also accepts `_` between digits and non-ASCII decimal digits.
- `ParseInt` and `IntToString` have no limit on the number of digits. Since Python 3.11, `int()` raises `ValueError` on a decimal literal of more than 4300 digits, and app.py:61 would then give `None`; `str()` also raises past that size. So `ParseIntOfIntToString`, `ConfidenceLineValue` and `RoundTrip` claim `Some(n)` for integers Python would reject. This cannot happen in the program: the reply is capped at 500 tokens (app.py:40), far too short for such a literal.
- `Split` and `Join` are modelled for a one-character separator, the only kind the parser uses.
- Labels and reasoning are not guaranteed to be free of their own prefix. `replace` can rebuild the prefix from the pieces around a deleted copy (`PrefixCanReappear`). What is proved instead: `InnerCopiesRemoved`, and `FieldLineValue` for values without a copy of the prefix.
- app.py has no event generator, batch loop, HTTP endpoint or JSON parser, so none is modelled.
