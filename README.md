# Keystroke-log report, modelled in Dafny

This project models the analysis core of `report.py`, the reporting half of a keylogger. The keylogger writes one line per keystroke: a 10-digit epoch timestamp, a 3-character separator and the key token, which is either a single character or a bracketed name such as `[return]`, `[tab]` or `[del]`. The report:

- reads those lines back into keystrokes;
- counts how often each key occurs;
- estimates the average time spent per key;
- attributes deletions to the key they corrected;
- estimates words per minute;
- exports the log as plain text.

Modules, one per concern:

- `Keystrokes` holds the shared vocabulary:
  - the `Keystroke` record;
  - `Result` and `Error`, which stand for the report's exceptions;
  - the five-second gap cap `Cap`;
  - counting over logs (`Count`, `KeySet`);
  - the sum of a key-to-count table (`MapSum`).
- `LogReader` is `get_keystrokes`: line parsing, plus the keylogger's line format as its inverse.
- `Frequencies` is `compute_frequences`.
- `KeyChars` is `convert_to_char` and Python's `str.isspace`.
- `TimePerChar` is `compute_time_per_char`.
- `Deletions` is `compute_deletions_per_char`.
- `Wpm` is `compute_wpm`.
- `Plaintext` is the text that `write_plaintext` writes.

Each loop of the report is a Dafny method with a loop. Most of these methods are proved equal to a recursive specification function, and the properties are proved about that function. The exceptions are `GetKeystrokes` and `DivideByFrequency`: they are specified element by element, against `ParseLine` and against the quotient of each total by its frequency. The report's dictionaries are Dafny maps that the methods reassign.

The model follows what the code does, including where the code stops short of what its comments aim at. There is one exception, the time gaps described below.

- **Deletions.** There is no cursor tracking: the TODO at report.py:131 leaves arrow keys and clicks unhandled. The scan runs backward over positions n-1 down to 2. A run of `[del]` keys fills a bank. The first non-deletion below the run charges one deletion to the key *before* it (`keystrokes[i-1]`) and empties the bank, instead of decrementing it.
- **Time per key.** It is not measured between consecutive keystrokes. The first event with a non-empty key becomes the reference, and the reference never moves. Every later event adds min(t - t_ref, 5) to its key. Each total is then divided by the key's full frequency, which also counts the reference event.
- **Words per minute.** There is no pause handling: the TODO at report.py:155 leaves skipping time at a period undone. Every consecutive pair adds its gap, capped at five seconds.
- **Time gaps, the exception.** As written, report.py:118 and report.py:156 apply `min` to a `datetime` difference and the integer 5. In Python 3 that raises `TypeError`. So `compute_wpm` fails on every log of two or more events, and `compute_time_per_char` fails as soon as one event follows the reference. The model does not reproduce that failure: it reads each gap as whole seconds, which is what the comment at report.py:118 evidently intends.

## Model

| member | source | states |
|---|---|---|
| Keystrokes.Cap | report.py:118 | `min(gap, 5)`, also at report.py:156: at most five and at most the gap, and equal to one of the two |
| Keystrokes.Bump | report.py:47-49 | `if key not in d: d[key] = 0` then `d[key] += 1`, also at report.py:139-141: the key is added, its count grows by one, and every other count is unchanged |
| LogReader.ParseLine | report.py:39-40 | a line yields a keystroke exactly when it has at least ten characters and the first ten are decimal digits; the time is below 10^10; the key is `line[13:-1]` under Python's slicing, character by character, so it is empty for lines of 14 characters or fewer |
| LogReader.KeySlice | report.py:40 | Python's `line[13:-1]`: the line's length minus 14 when the line is longer than 13 characters and 0 otherwise, and the i-th character is `line[13 + i]` |
| LogReader.DecimalValue | report.py:39 | `int` of a string of decimal digits: a value below 10 to the power of the length of s |
| LogReader.PadDecimalValue | report.py:39 | DecimalValue inverts zero-padded decimal writing: the value of t written in `width` digits is t, for every t below 10^width |
| LogReader.GetKeystrokes | report.py:36-42 | on success: one keystroke per line, in order, each the parse of its line; on failure: a parse error at the first line whose timestamp is not a number, with every earlier line parsed |
| LogReader.ParseFormatRoundTrip | report.py:39-40 | parsing a line in the keylogger's format (ten zero-padded digits, a 3-character separator, the key, a newline) gives back the timestamp and the key |
| Keystrokes.CountPositive | report.py:46-49 | a key has a positive count exactly when it occurs in the log |
| Frequencies.ComputeFrequencies | report.py:44-50 | the table holds exactly the keys that occur; each maps to its number of occurrences; the counts add up to the number of keystrokes |
| KeyChars.ConvertToChar | report.py:100-104 | the model of `convert_to_char`: its ensures give the three cases (tab, return, every other key unchanged), which is the definition; the lemmas below state its properties |
| KeyChars.IsSpaceAscii | report.py:153 | the model of `str.isspace` (IsSpaceChar, IsSpace) agrees with Python on ASCII: exactly tab, line feed, vertical tab, form feed, carriage return, 0x1C-0x1F and space |
| KeyChars.IsSpaceAppend | report.py:153 | like `str.isspace`, IsSpace of a joined string holds exactly when the string is non-empty and each part is empty or whitespace |
| KeyChars.ConvertToCharIdentityOff | report.py:100-104 | `[tab]` becomes a tab and `[return]` a newline; a key is changed exactly when it is one of those two tokens |
| KeyChars.ConvertToCharIdempotent | report.py:100-104 | converting twice is converting once |
| KeyChars.ConvertToCharSpace | report.py:100-104 | a converted key is whitespace exactly when it is `[tab]`, `[return]` or already whitespace; other bracketed names never are |
| TimePerChar.RefIndex | report.py:109-115 | the reference is the first event with a non-empty key; every event before it has an empty key |
| TimePerChar.Accumulated | report.py:116-118 | a key's total is at most five seconds per occurrence |
| TimePerChar.AverageTimes | report.py:106-125 | the reference table, by definition: for each key of an event after the reference, Accumulated over Count; its ensures only records that domain |
| TimePerChar.ComputeTimePerChar | report.py:106-125 | the report's two loops compute the table: each key after the reference maps to its capped distances to the reference, summed and divided by its frequency |
| TimePerChar.AccumulateAgainstFirst | report.py:108-118 | the first loop's totals: one entry per key after the reference, holding that key's accumulated capped distance to the reference |
| TimePerChar.AddGap | report.py:116-118 | charging a gap to a key: the key is added, its total grows by the gap, and every other total is unchanged |
| TimePerChar.ChargeLater | report.py:116-118 | the loop body for an event after the reference keeps the totals equal to Accumulated, one event further |
| TimePerChar.AddCharge | report.py:116-118 | the two-step dictionary update of the loop computes AddGap |
| TimePerChar.DivideByFrequency | report.py:122-123 | every total divided by its key's frequency, with the same keys |
| TimePerChar.TimePerCharBounds | report.py:118-123 | every average is at most five seconds; on time-ordered input it is at least zero |
| TimePerChar.ReferenceNeverAdvances | report.py:112-118 | for keys a, b, c at seconds 0, 1, 2, key c averages two seconds (its distance to a), not one |
| Deletions.Step | report.py:134-142 | one scan position: after a deletion the bank grows by one, after any other key it is empty; the table gains one charge for the preceding key exactly when a non-deletion meets a non-empty bank |
| Deletions.ScanFrom | report.py:133-142 | the state after scanning from the end down to position i: the bank is at most the number of positions scanned, and no key in the table has a zero count |
| Deletions.ComputeDeletions | report.py:127-143 | fails exactly when there are fewer than two events; otherwise it returns the backward scan's table, whose keys and counts are the charges (ChargeCount) and whose counts add up to at most the number of deletions scanned |
| Deletions.ScanCharacterized | report.py:132-142 | holds at every point of the scan: the bank is the length of the deletion run at the current position, and key k has been charged once for each non-deletion followed directly by a deletion whose predecessor is k |
| Deletions.DeletionsAreCharges | report.py:127-143 | the table's keys are exactly the charged keys, each with its number of charges |
| Deletions.ScanBounded | report.py:135-142 | counts plus bank never exceed the deletions scanned so far |
| Deletions.DeletionsBounded | report.py:127-143 | the counts add up to at most the deletions at positions 2 and later |
| Deletions.NoDeletionsNoCharges | report.py:132-142 | with no deletion among the scanned positions, the table is empty |
| Deletions.TrailingDeletionAfterTwoKeys | report.py:132 | for a, b, [del] the table is empty: the scan stops at position 2 and never charges position 0 |
| Deletions.DeletionChargesTwoBack | report.py:136-141 | for a, b, c, [del] the deletion is charged to b, the key before the corrected one |
| Deletions.RunChargesOnce | report.py:135-142 | two deletions in a row are charged once, because the bank is emptied rather than decremented |
| Wpm.ComputeWpm | report.py:145-157 | equals WordsPerMinute; it fails for lack of data exactly when there are fewer than two events |
| Wpm.WordsPerMinute | report.py:149-157 | `InsufficientData` exactly when there are fewer than two events, as the assert at report.py:149 does; `DivisionUndefined` (the `ZeroDivisionError` at report.py:157) exactly when there are two or more events and the total time is zero |
| Wpm.WordsPerMinuteRate | report.py:157 | a defined estimate w is a rate: w times the total seconds is sixty times the word count |
| Wpm.ScanPairs | report.py:151-156 | the loop's word count and total time equal WordCount and TotalTime |
| Wpm.EndsWord | report.py:153 | the report's test on the pair, stated on the raw keys: the current token is `[tab]`, `[return]` or whitespace, and the previous token is none of these; it equals IsBoundary of the pair |
| Wpm.WordCount | report.py:151-154 | at most one word per consecutive pair |
| Wpm.TotalTime | report.py:151-156 | at most five seconds per pair, and at most the time from the first event to the last |
| Wpm.WordCountIsBoundaryCount | report.py:151-154 | the word count is the number of positions where a whitespace key follows a non-whitespace one |
| Wpm.WordCountAtMostHalf | report.py:153-154 | no two boundaries are adjacent, so twice the word count is at most the number of keystrokes |
| Wpm.TotalTimeNonNegative | report.py:156 | on time-ordered input the total time is non-negative |
| Wpm.TotalTimeZeroIff | report.py:156-157 | on time-ordered input the total time is zero, so the division is undefined, exactly when every event has the first event's timestamp |
| Wpm.WpmBounds | report.py:145-157 | on time-ordered input a defined estimate is non-negative and at least the rate that would hold if every pair took the full five seconds: w * (n-1) >= 12 * words |
| Plaintext.Emit | report.py:96-99 | one keystroke writes at most one character |
| Plaintext.TextOf | report.py:92-99 | the text is no longer than the log |
| Plaintext.WritePlaintext | report.py:92-99 | the loop's output is TextOf the log |
| Plaintext.PlaintextAppend | report.py:95-99 | the text of two logs one after the other is the two texts joined |
| Plaintext.PlaintextOfTyped | report.py:95-97 | exporting the log of a string typed one character at a time gives the string back |
| Plaintext.PlaintextLength | report.py:95-99 | the text's length is the number of keystrokes that are single characters or returns |

## Left out

- Reading the log file and writing the output files are not modelled. The reader gets the file as a sequence of lines, and the plain-text export returns a string. The `print` calls, the statistics and the `__main__` driver of `report.py` are not modelled either.
- Time zones are not modelled. The source turns each timestamp into a time-zone-aware `datetime` with `pytz`; the model keeps plain epoch seconds as integers.
- The source applies `min` to a `datetime` difference and the integer 5 (report.py:118, report.py:156), which raises `TypeError` in Python 3. The model does not capture that failure: Keystrokes.Cap, TimePerChar.ComputeTimePerChar and Wpm.ComputeWpm read the gap as whole seconds.
- `convert_size`, `print_histogram` and `json_serialize` produce output only, and are not modelled.
- Every division is exact, on Dafny reals. Floating-point rounding is not modelled.
- LogReader.ParseLine: accepts only ten ASCII digits. Python's `int()` also accepts leading and trailing whitespace, a sign, underscores between digits, non-ASCII decimal digits, and lines shorter than ten characters.
- LogReader.GetKeystrokes: the failure carries the index of the bad line. Python's `ValueError` names no line.
- The analyses' `assert len(keystrokes) > 1` is modelled as a `Failure(InsufficientData)` result, and Python's `ZeroDivisionError` in words per minute as `Failure(DivisionUndefined)`. Neither is an exception in the model.
- TimePerChar.DivideByFrequency: the source divides the dictionary's totals in place. The model builds a new map with the same keys.
- Plaintext.WritePlaintext: the source's `shift` flag is never set, so the upper-casing branch can never run and is not modelled.
