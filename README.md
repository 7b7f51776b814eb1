# Cinechords MIDI export and transposition, modelled in Dafny

Cinechords composes chord progressions. A progression is a tempo in beats per minute, a key label and a list of chord steps. Each step has a name, harmony notes, an optional melody line and a duration in beats. This project models two parts of it:

- **The MIDI encoder.** It turns a progression into a format-0 Standard MIDI File with one track and 480 ticks per quarter note. Its parts are:
  - parsing pitch names such as `C#3` into MIDI note numbers (middle C = 60);
  - scheduling absolute-tick note-on and note-off records;
  - sorting the records stably by tick;
  - writing delta times as variable-length quantities;
  - framing the `MThd` and `MTrk` chunks with a Set Tempo and an End of Track meta event;
  - truncating every number to a byte.
- **The transposition utilities.** They look up pitch classes, shift scientific pitch names and carry octaves, shift chord roots while keeping the quality suffix, and map both over a whole progression.

Modules, one per file:

| file | module | what it holds |
|---|---|---|
| types.dfy | `Types` | `Progression`, `ChordData`, `TheoryAnalysis`, `Option` |
| decimal.dfy | `Decimal` | `parseInt(…, 10)` on the octave and the decimal text of an octave |
| pitch_name.dfy | `PitchName` | the note-name pattern, `noteNameToMidi` |
| var_int.dfy | `VarInt` | `writeVarInt` (a method with its loops) and a reader for the quantity |
| big_endian.dfy | `FixedWidth` | `numToBytes` (a method with its loop) and its inverse |
| scheduler.dfy | `Scheduler` | `MidiEvent`, the scheduling loop, the in-place stable sort on an array |
| midi_file.dfy | `MidiEncoder` | `stringToBytes`, the tempo, the delta pass, both chunks, `generateMidiBlob` |
| midi_reader.dfy | `MidiReader` | a reader for the files the encoder writes; the encoder's round trip is proved against it |
| music_theory.dfy | `MusicTheory` | `NOTES`, `getNoteIndex`, `transposeNote` |
| chord_transposition.dfy | `ChordTransposition` | `transposeChordName`, the key label, `transposeProgression` |
| seqs.dfy | `Seqs` | three facts about concatenation used by the proofs |

The code that mutates state is modelled as imperative Dafny:

- `writeVarInt`, `numToBytes`, the event loop, the sort, the delta pass, `transposeNote` and `transposeChordName` are methods with their loops.
- Each method is proved equal to a specification function.
- The properties of the source are proved as lemmas about those functions.
- The `forEach` callbacks of `generateMidiBlob` become the methods `PushHarmony`, `PushMelody` and `EncodeEvents`.
- The sort works in place on an `array<MidiEvent>` (`SortEvents`, `InsertLast`).

## Model

| member | source | states |
|---|---|---|
| Decimal.IntTextDigits | utils/musicTheory.ts:40 | a non-negative octave printed by the template literal is a run of decimal digits with no leading zero, denoting the octave |
| Decimal.IntTextSigned | utils/musicTheory.ts:40 | every printed octave is a minus sign exactly when it is negative, then the digits of its magnitude with no leading zero |
| Decimal.ParseSignedDigitsMatches | services/midiService.ts:27-33 | the octave part `-?\d+` is accepted exactly when it is digits, optionally after one minus sign |
| Decimal.ParseIntText | utils/musicTheory.ts:23-40 | `parseInt` of a printed octave gives the octave back |
| PitchName.Upper | services/midiService.ts:31 | `toUpperCase` never leaves a lower-case letter, turns a lower-case letter into the capital at the same alphabet position (a note letter into A–G), and keeps capitals, digits, `#` and `-` |
| PitchName.ParsePitchMatches | services/midiService.ts:27-33 | the parser succeeds exactly on a letter a–g or A–G, an optional `#` or `b` and an optionally signed run of digits; the name is then its letter and accidental followed by the octave digits |
| PitchName.ParseFormatPitch | services/midiService.ts:27-33 | parsing the printed form of a pitch gives that pitch back |
| PitchName.NoteNameToMidi | services/midiService.ts:25-46 | a name the pattern rejects gives 60; a matching name parses and its number lies within one semitone of its octave's C to B range, 12(octave+1) − 1 … 12(octave+1) + 12 |
| PitchName.NoteNameToMidiMeaning | services/midiService.ts:35-45 | read off the characters of a matching name: (octave text's value + 1) * 12 + offset of the upper-cased first letter + 1 for a `#` or − 1 for a `b` in second place |
| PitchName.MidiOfFormatPitch | services/midiService.ts:35-45 | the number of a printed pitch is its pitch number |
| PitchName.OctaveStep | services/midiService.ts:45 | one octave up is 12 more |
| PitchName.AccidentalStep | services/midiService.ts:39-41 | a sharp adds 1 and a flat subtracts 1 from the natural |
| PitchName.LetterCase | services/midiService.ts:31 | a lower-case letter gives the same number as its upper-case form |
| PitchName.NaturalInOctave | services/midiService.ts:35-45 | a natural note of octave o lies in 12(o+1) … 12(o+1)+11 |
| PitchName.NoteNameExamples | services/midiService.ts:43-45 | C4 → 60, C-1 → 0, A0 → 21 |
| PitchName.AccidentalExamples | services/midiService.ts:39-45 | C#3 and Db3 → 49; Cb-1 → −1, unclamped |
| PitchName.NoteNameFallbackExamples | services/midiService.ts:27-29 | "H3", "C", "C#", "C4 ", "C##4" and "" all fall back to 60 |
| VarInt.WriteVarInt | services/midiService.ts:9-23 | the push loop, the reversal (the function `Reverse`) and the marking loop return the quantity of the value (no bytes for a negative value) |
| VarInt.Vlq | services/midiService.ts:9-23 | the quantity is well formed (continuation bit on every byte but the last, none on the last, no empty leading group) and its 7-bit groups read big-endian give the value |
| VarInt.VlqUnique | services/midiService.ts:9-23 | every well-formed quantity is the encoding of the value it denotes |
| VarInt.ReadVlq | services/midiService.ts:9-23 | reading the quantity from the front of any stream gives the value and consumes exactly its bytes |
| VarInt.VlqExamples | services/midiService.ts:9-23 | 0 → 00, 127 → 7F, 128 → 81 00, 1920 → 8F 00, 16384 → 81 80 00 |
| FixedWidth.NumToBytes | services/midiService.ts:48-54 | the loop returns the `bytes` low bytes of `num`, most significant first |
| FixedWidth.BigEndianRoundTrip | services/midiService.ts:48-54 | the bytes read back give `num` modulo 256^k, so exactly `num` when 0 ≤ num < 256^k |
| FixedWidth.BigEndianUnique | services/midiService.ts:48-54 | any k bytes are the encoding of their value, which is below 256^k |
| Scheduler.CollectEvents | services/midiService.ts:66-99 | the chord loop with its running `currentTick` produces exactly the schedule of the chords |
| Scheduler.PushHarmony | services/midiService.ts:73-79 | the harmony callback appends, per note and in order, note-on at the start and note-off after the duration |
| Scheduler.PushMelody | services/midiService.ts:85-95 | the melody callback appends, per note and in order, note-on at start + i·seg and note-off at start + (i+1)·seg |
| Scheduler.HarmonyEventsAt | services/midiService.ts:73-79 | record 2j is NoteOn 0x90 at the chord's start with note j's number and velocity 0x45; record 2j+1 is NoteOff 0x80 at start + duration with velocity 0 |
| Scheduler.MelodyEventsAt | services/midiService.ts:82-95 | melody note i is on (velocity 0x64) at start + i·seg and off at start + (i+1)·seg |
| Scheduler.SegmentsFit | services/midiService.ts:83-91 | seg = ⌊duration / count⌋ is non-negative, the segments fit inside the chord and leave fewer than `count` ticks unused |
| Scheduler.ChordEventsWithin | services/midiService.ts:69-98 | every record of a chord lies between its start and its end and is a note-on or a note-off |
| Scheduler.ScheduleBlock | services/midiService.ts:69-98 | chord i's records follow the records of the chords before it, and chord i starts at the sum of their durations |
| Scheduler.ScheduleCount | services/midiService.ts:69-99 | there are 2 · (harmony notes + melody notes) records over all chords |
| Scheduler.ScheduleWithin | services/midiService.ts:66-99 | every record lies between tick 0 and the end of the last chord |
| Scheduler.SortEvents | services/midiService.ts:102 | the in-place sort leaves the array equal to the stable sort by tick of its old contents |
| Scheduler.InsertLast | services/midiService.ts:102 | one insertion step shifts the later records right and places the new one after every record with an equal or smaller tick; the rest of the array is untouched |
| Scheduler.SortByTicksProperties | services/midiService.ts:102 | the sorted list has non-decreasing ticks, is a permutation of the input, and keeps the input order among records of each tick (stable) |
| Scheduler.SortByTicksUnique | services/midiService.ts:102 | a tick-sorted list that keeps every tick's records in input order is the sorted list, so any stable sort yields it |
| MidiEncoder.StringToBytes | services/midiService.ts:5-7 | one number per Unicode character, the character's code (the same as the source's UTF-16 split for characters below U+10000) |
| MidiEncoder.StringToBytesInjective | services/midiService.ts:5-7 | different strings give different numbers |
| MidiEncoder.StringToBytesStored | services/midiService.ts:5-7 | a string of one-byte characters passes the byte array unchanged and each byte decodes back to its character |
| MidiEncoder.MicrosecondsPerBeat | services/midiService.ts:108 | the tempo is 60000000 / bpm rounded to the nearest integer, halves up |
| MidiEncoder.TempoEventBytes | services/midiService.ts:108-109 | the tempo event is `00 FF 51 03` and three bytes that read back as the tempo modulo 2^24, exactly from 4 bpm up |
| MidiEncoder.TempoFits | services/midiService.ts:108-109 | from 4 bpm up the tempo fits its three bytes |
| MidiEncoder.TempoExample | services/midiService.ts:108-109 | 120 bpm gives 500000, written `07 A1 20` |
| MidiEncoder.EncodeEvents | services/midiService.ts:111-117 | the delta pass with its `lastTick` writes, for each record, the quantity of its tick minus the previous one and then status, note and velocity |
| MidiEncoder.DeltaBytesWritesDeltaTimes | services/midiService.ts:111-117 | the delta-coded records are, record by record, the quantity of the delta time `DeltaTimes` gives followed by status, note and velocity |
| MidiEncoder.DeltaTimesAt | services/midiService.ts:111-117 | record i's written delta is its tick minus the tick of record i−1 (minus 0 for the first) |
| MidiEncoder.DeltaTimesSum | services/midiService.ts:111-117 | the written deltas sum to the final record's tick, or to 0 when there are no records |
| MidiEncoder.HeaderChunkBytes | services/midiService.ts:123-129 | the header is `MThd 00 00 00 06 00 00 00 01 01 E0` |
| MidiEncoder.TrackHeaderBytes | services/midiService.ts:132-135 | the track header is `MTrk` and four bytes that read back as the track length below 2^32 |
| Scheduler.LastChordCloses | services/midiService.ts:66-99 | when the last chord has a harmony note, some record falls exactly on the end of the last chord |
| Scheduler.LastTickBeforeTotal | services/midiService.ts:66-102 | without a harmony note in the last chord the final record can end early: "C4" for a beat, then a silent beat, ends at tick 480 of 960 |
| MidiEncoder.LastTickIsTotal | services/midiService.ts:66-102 | when the last chord has a harmony note, the final sorted record falls exactly on the sum of the chord lengths in ticks |
| MidiEncoder.SortedWithin | services/midiService.ts:66-102 | after the sort every record still lies between tick 0 and the end of the last chord |
| MidiEncoder.ToUint8At | services/midiService.ts:137-141 | byte i of the array is number i modulo 256 |
| MidiEncoder.ToUint8Bytes | services/midiService.ts:137-141 | numbers that are bytes already pass unchanged |
| MidiEncoder.WriteFile | services/midiService.ts:104-141 | from the sorted records, the tempo event, delta pass, end of track, header chunk, track header and byte array produce the file bytes |
| MidiEncoder.GenerateMidi | services/midiService.ts:63-141 | scheduling, copying into an array, sorting in place and writing produce exactly the file of the progression |
| MidiReader.ReadDeltaBytes | services/midiService.ts:111-120 | the delta-coded records followed by end of track read back as exactly those records, whenever ticks never decrease |
| MidiReader.ToUint8DeltaBytes | services/midiService.ts:137-141 | truncating the record bytes is the same as encoding the records with status, note and velocity truncated, since delta times are bytes already |
| MidiReader.MidiFileParts | services/midiService.ts:104-141 | the file is header, then track header with the track length, then tempo, records and end of track, with nothing before, between or after |
| MidiReader.ReadLayout | services/midiService.ts:119-141 | a file in that layout is read back as its tempo bytes and records |
| MidiReader.SortedTicksFrom | services/midiService.ts:66-102 | the sorted records start at tick 0 or later and never go back |
| MidiReader.MidiRoundTrip | services/midiService.ts:63-141 | reading the file gives back the tempo (mod 2^24) and every sorted record with its absolute tick, status, note and velocity taken mod 256, provided the track length fits its field |
| MusicTheory.NotesDistinct | utils/musicTheory.ts:3 | `NOTES` has twelve distinct names |
| MusicTheory.IndexOfFirst | utils/musicTheory.ts:9-11 | `indexOf` gives −1 exactly when the name is absent, and otherwise its first position |
| MusicTheory.TableIndex | utils/musicTheory.ts:5-12 | the lookup gives a position 0..11 holding the upper-cased, flat-respelled name, or −1 exactly when `NOTES` does not hold it |
| MusicTheory.NoteIndex | utils/musicTheory.ts:5-12 | the pitch class is −1 (none) or one of 0..11 |
| MusicTheory.NoteIndexDomain | utils/musicTheory.ts:5-12 | only a one- or two-character name starting with a note letter has a pitch class |
| MusicTheory.NoteIndexIsTableLookup | utils/musicTheory.ts:5-12 | the pitch class by cases equals the literal lookup: uppercase, map the five flats to sharps, `indexOf` in `NOTES` |
| MusicTheory.NoteIndexOfPitch | utils/musicTheory.ts:5-12 | a parsed letter and accidental get the pitch class of their upper-case spelling |
| MusicTheory.NoteIndexOfNotes | utils/musicTheory.ts:3-11 | every name of `NOTES` gets its own position |
| MusicTheory.NoteIndexFlats | utils/musicTheory.ts:5-12 | Db, Eb, Gb, Ab, Bb (and `bb`) get 1, 3, 6, 8, 10; Cb, Fb, E# and B# get −1 |
| MusicTheory.SpelledPitchText | utils/musicTheory.ts:40 | the result is a `NOTES` name followed by the decimal octave |
| MusicTheory.TransposeNote | utils/musicTheory.ts:14-41 | the method with its two `while` loops returns the transposed note |
| MusicTheory.NormalisedIndex | utils/musicTheory.ts:28-40 | for any index in 0..11 and octave whose octave·12 + index is the old semitone count plus the shift (the state the loops stop in), the `NOTES` entry at the index followed by the printed octave is the transposed note |
| MusicTheory.TransposedNoteUnchanged | utils/musicTheory.ts:17-26 | an unparseable name or an unknown pitch class comes back unchanged |
| MusicTheory.TransposedNoteSpelled | utils/musicTheory.ts:28-40 | a parsed note becomes the sharp spelling of its semitone count plus the shift |
| MusicTheory.TransposedSpelledAt | utils/musicTheory.ts:28-40 | shifting a sharp spelling by k gives the sharp spelling k semitones on |
| MusicTheory.TransposedNoteSemitones | utils/musicTheory.ts:28-40 | the result parses again, is spelled from `NOTES`, and its semitone count is the old one plus the shift |
| MusicTheory.TransposedNoteCompose | utils/musicTheory.ts:14-41 | shifting by a then by b is shifting by a + b |
| MusicTheory.TransposedNoteRoundTrip | utils/musicTheory.ts:14-41 | shifting by k and back by −k gives the sharp-normalised note |
| MusicTheory.TransposedNoteMidi | utils/musicTheory.ts:14-41 | the MIDI number of a transposed note is the old number plus the shift |
| MusicTheory.TransposedNoteCarryExamples | utils/musicTheory.ts:31-38 | B3 + 1 → C4, C4 − 1 → B3 |
| MusicTheory.TransposedNoteSpellingExamples | utils/musicTheory.ts:17-40 | Db3 + 0 → C#3; Cb3 and "x" come back unchanged |
| ChordTransposition.SplitChordNameParts | utils/musicTheory.ts:45-51 | the root is an upper-case A–G followed by `#` or `b` exactly when the name's second character is one of them, root + quality is the name, and the match fails exactly when the name does not start with A–G or the rest holds a line terminator |
| ChordTransposition.TransposeChordName | utils/musicTheory.ts:43-61 | the method with its two `while` loops returns the transposed chord name |
| ChordTransposition.NormalisedRoot | utils/musicTheory.ts:56-60 | when the loops stop, the new root is `NOTES` at (root index + shift) mod 12 |
| ChordTransposition.TransposedChordNameUnchanged | utils/musicTheory.ts:46-54 | a name that does not match or has an unknown root comes back unchanged |
| ChordTransposition.TransposedChordNameMeaning | utils/musicTheory.ts:43-61 | the quality is kept verbatim as the suffix, and the root's pitch class moves by the shift modulo 12, with no octave |
| ChordTransposition.TransposedChordNameCompose | utils/musicTheory.ts:43-61 | when the quality does not start with `#` or `b`, shifting by a then b is shifting by a + b |
| ChordTransposition.ChordNameComposeCounterexample | utils/musicTheory.ts:45-60 | otherwise it need not be: "Bbb" + 2 + 1 gives "Cb" but "Bbb" + 3 gives "C#b", because the quality "b" is read back as a flat |
| ChordTransposition.ChordRootMovesLikeNote | utils/musicTheory.ts:14-61 | a root moves to the same spelling as the note of that name, whose octave carries (root index + shift) / 12 |
| ChordTransposition.TransposedChordNameExamples | utils/musicTheory.ts:43-61 | Am7 + 2 → Bm7, C − 1 → B |
| ChordTransposition.FlatChordNameExample | utils/musicTheory.ts:5-12 | Bbmaj7 + 2 → Cmaj7 |
| ChordTransposition.ChordNameUnchangedExamples | utils/musicTheory.ts:45-54 | "Cbm", "am" and "C\nm" come back unchanged |
| ChordTransposition.Split | utils/musicTheory.ts:69 | `split` gives at least one piece, and text without the separator is a single piece |
| ChordTransposition.SplitCount | utils/musicTheory.ts:69 | there is one piece more than there are separators |
| ChordTransposition.SplitJoin | utils/musicTheory.ts:69-72 | splitting what `join` makes of pieces that hold no separator gives the pieces back, so `join` is the inverse of `split` in both directions |
| ChordTransposition.JoinSplit | utils/musicTheory.ts:69-72 | joining the words of `split(' ')` with spaces gives the key back, and no word holds a space |
| ChordTransposition.SplitFirst | utils/musicTheory.ts:69-72 | for "w rest" the first word is w and the remaining words join to rest |
| ChordTransposition.TransposedKeyWords | utils/musicTheory.ts:67-73 | the key's first word is transposed as a chord name and the remaining words are kept |
| ChordTransposition.TransposedKey | utils/musicTheory.ts:67-73 | a one-word key is transposed as a chord name and gains a trailing space |
| ChordTransposition.TransposedKeyOneWordExample | utils/musicTheory.ts:67-73 | "C" + 2 → "D " |
| ChordTransposition.TransposedProgression | utils/musicTheory.ts:63-87 | bpm, the number of chords and every chord's duration are kept, so the MIDI timing does not change |
| ChordTransposition.TransposedProgressionShape | utils/musicTheory.ts:63-87 | a shift of 0 returns the progression itself. Otherwise title, description, analysis, each chord's roman and description, and the note and melody lengths are kept, and a missing melody becomes present |
| ChordTransposition.TransposedProgressionMidi | utils/musicTheory.ts:75-80 | every transposable harmony or melody note's MIDI number moves by the shift; harmony and melody notes that are not transposable (such as "x" or "Cb3") are kept |

## Left out

- The `Blob` wrapper and its MIME type (services/midiService.ts:143) are not modelled; the model stops at the byte array.
- Durations are whole beats (`nat`). `Math.round(duration * 480)` is then exact, so fractional durations are not modelled.
- The tempo is a positive whole bpm. `Math.round(60000000 / bpm)` is modelled by integer rounding, halves up. A zero, negative or fractional bpm is not modelled.
- MidiEncoder.GenerateMidi: requires a positive bpm and a total length below 2^31 ticks. `writeVarInt` shifts with the 32-bit signed `>>=`, and its behaviour from 2^31 on is not modelled.
- VarInt.WriteVarInt: requires a value below 2^31, for the same reason.
- MidiEncoder.StringToBytes: `split('')` is modelled per Unicode character, because a Dafny `char` is a whole character. This equals the source's split into UTF-16 code units only for characters below U+10000; a character above that gives one number here and two surrogates in the source. The encoder calls it only on "MThd" and "MTrk", so the file bytes are the same.
- FixedWidth.NumToBytes: requires a width of at most 4, the widest the encoder uses. For those widths the masked byte `(num >> 8i) & 0xFF` equals `(num / 256^i) % 256` for every integer; the shift alone does not agree with division from 2^31 on, but the mask removes the difference.
- MidiReader.MidiRoundTrip: requires a track length below 2^32, the range of its four-byte field. The encoder does not check this.
- Pitches are not clamped to 0..127, following the code (noteNameToMidi can give −1 or more than 127). The byte array then keeps them modulo 256, which the round trip states.
- `toUpperCase` is modelled on ASCII letters only. The patterns admit no other letters, so no other character reaches it.
- `parseInt` is modelled exactly. The precision loss of very long digit runs in floating point is not, and neither is the exponent notation (`1e+21`) a template literal prints for octaves of 10^21 and beyond; `IntText` always prints plain digits.
- The event list is a `seq` that the pushes extend. It is copied into an array for the in-place sort, so aliasing of the JavaScript array is not modelled.
- Stability of `Array.prototype.sort` is taken from the language standard. The model uses an insertion sort and proves that any stable sort gives the same list.
- The `MidiReader` module is not part of the application; it is the inverse the encoder is proved against.
- services/audioService.ts, services/geminiService.ts, App.tsx, components/ and constants.ts are not part of this model: synthesis, network calls, rendering and data.
