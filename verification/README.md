# Verified model of the Almond Android core

ThingEngine-platform-android runs the Almond engine in Node.js inside an
Android app. This project models the parts of it that are algorithms or
protocols and proves what they are for:

* **Exact arithmetic** (`Words`, `Rationals`, `Integers`, `Rounding`,
  `Fractions`, `Expressions`): the C++ expression templates of the bundled GMP. An
  arithmetic expression is a tree that is evaluated straight into its
  destination, which may occur in the tree; each specialization decides when a
  temporary is needed. Variables are heap cells, so aliasing is real. The
  central theorems are the contracts of `Expressions.EvalZ` and
  `Expressions.EvalQ`.
* **Limb arithmetic** (`Limbs`, `MpzLimbs`): the inline functions over limb
  arrays with 2^32 as base, and the sign-magnitude form of an integer.
* **Calls into JavaScript** (`WakeQueue`, `NodeCalls`): a list guarded by a
  mutex, drained by an event loop that is woken with a coalescing signal, with
  futures for synchronous callers and one-shot promise holders. The steps of
  the calling threads, the loop and the JavaScript promises interleave freely;
  theorems speak of every sequence of steps.
* **Calls into Java** (`JavaPromises`): promise ids, the table of resolvers,
  the thread pool and the queue that brings completions back.
* **Message framing** (`Json`, `JsonTheorems`, `DatagramSocket`): JSON texts
  of RFC 8259, one per line, with the unterminated last line parsed eagerly.
* **Byte encodings** (`Bytes`, `Base64`, `Hex`, `BufferText`, `AsciiScan`):
  base64 and hex of RFC 4648, right for every buffer their caller accepts, and
  the word-at-a-time scan for bytes outside ASCII.
* **Preferences** (`Preferences`): a write-behind cache that looks like a map.
* **Marshalled values** (`InteropValues`): a tagged union that owns memory.

Each source object whose methods update its fields is a class whose methods
are proved against a specification function; the protocol theorems are about
those functions. An action that is not enabled waits, so the theorems about
every sequence of actions cover every run.

## What does not hold

* `contains_non_ascii` compiled with 8-byte words for a processor other than
  x86-64 uses a mask that covers the first four bytes of each word only. It
  misses a byte outside ASCII in the other four, so the agreement with
  `contains_non_ascii_slow` holds exactly when the mask covers the word or the
  buffer is shorter than 16 bytes (`AsciiScan.ScanAgrees`).
* The eager reader emits `1` when the message `12` arrives in two chunks. The
  framing is right for every splitting exactly when no message is a bare
  number of more than one digit (`DatagramSocket.FramingExact`), and for one
  splitting exactly when no chunk ends inside a message where the part so far
  parses (`DatagramSocket.SplittingExact`).
* `>>` on integers rounds toward minus infinity and `/` toward zero; they agree
  exactly on nonnegative values and multiples (`Words.FloorShiftDivides`).
* `z op= tree` with an integer `z` and a rational tree rounds the tree before
  the operation (`Expressions.CompoundZFromQ`), so the integer 2 times one half gives 0
  (`Rounding.RoundingTwiceDiffers`). A divisor strictly between -1 and 1 becomes
  zero and the division raises an error, although 1 divided by one half is 2
  (`Rounding.RoundsToZero`). When the outcome is the exact result rounded once
  is decided for each operator by `Rounding.RoundsOnceExactly`.
* Dividing the machine word LONG_MIN by the integer -1 overflows in the native
  division (`Words.NativeOverflow`), and no other pair does
  (`Words.QuotientIsLong`, `Integers.WordDefinedExactly`).

## Model

| member | source | states |
|---|---|---|
| `Words.AbsUI` | app/src/main/jni/gmpxx.h:151-155 | the unsigned result is the mathematical magnitude of every long, LONG_MIN included |
| `Words.UnsignedCast` | app/src/main/jni/gmpxx.h:200-206 | casting a long to unsigned and negating the cast give the long itself and its magnitude, on the sides where the code relies on it |
| `Words.TruncatedDivisionUnique` | app/src/main/jni/gmpxx.h:606-609 | quotient and remainder with a = q·b + r, a remainder smaller than b and of the sign of a, are the ones the tdiv functions compute, and only those |
| `Words.UnsignedDividend` | app/src/main/jni/gmpxx.h:629-649 | dividing an unsigned word: native division by the magnitude when the divisor fits a word, quotient 0 and remainder the word when it does not |
| `Words.SignedDividend` | app/src/main/jni/gmpxx.h:660-670 | dividing a long by an integer that is no long: quotient 0 unless the magnitudes agree, which only LONG_MIN by -LONG_MIN does |
| `Words.PowerOfTwoShift` | app/src/main/jni/gmpxx.h:487-500 | for l ≠ 0, the test l & (l - 1) == 0 holds exactly when l is two to the power ctz(l) |
| `Words.TruncShiftDivides` | app/src/main/jni/gmpxx.h:611-628 | under that test the truncating shift by ctz(l) is truncated division by l, for dividends of either sign |
| `Words.FloorShiftDivides` | app/src/main/jni/gmpxx.h:458-468 | the flooring shift of operator>> is truncated division by 2^n exactly when the dividend is nonnegative or a multiple of 2^n |
| `Words.FloorShiftFloors` | app/src/main/jni/gmpxx.h:458-468 | that flooring shift by n is the greatest integer whose multiple by 2^n does not exceed the operand, of either sign |
| `Words.BitwiseExact` | app/src/main/jni/gmpxx.h:806-859 | bitwise and, or and exclusive or of two integers give the one integer whose every bit, in two's complement of unlimited width, is the operation on theirs |
| `Integers.ApplyBits` | app/src/main/jni/gmpxx.h:806-859 | and, inclusive or and exclusive or each combine every pair of bits by their own connective |
| `Words.ComplementBits` | app/src/main/jni/gmpxx.h:177-180 | -a - 1 has every bit of a turned over |
| `Words.QuotientIsLong` | app/src/main/jni/gmpxx.h:660-663 | for every long l and nonzero integer w the truncated quotient is a long if and only if (l, w) is not (LONG_MIN, -1) |
| `Words.NativeOverflow` | app/src/main/jni/gmpxx.h:662-663 | at (LONG_MIN, -1) the quotient is 2^31, so the native division has no result |
| `Integers.WordDefinedExactly` | app/src/main/jni/gmpxx.h:767-799 | word op integer is defined if and only if the divisor is not zero and the native operation is defined on the path that reaches it |
| `Words.BitwiseSymmetric` | app/src/main/jni/gmpxx.h:811-818 | bitwise and, or and exclusive or on integers of unlimited width are symmetric, which word-first overloads rely on |
| `Rationals.Reduce` | app/src/main/jni/gmpxx.h:214-215 | the form the mpq functions leave: numerator and denominator coprime, denominator positive, the same number |
| `Rationals.AddIntegerMultiple` | app/src/main/jni/gmpxx.h:246-256 | num + den·l over the same denominator is the exact sum and needs no reduction |
| `Rationals.NegateCanonical` | app/src/main/jni/gmpxx.h:381-382 | negating the numerator negates the number and keeps lowest terms |
| `Rationals.CanonicalUnique` | app/src/main/jni/gmpxx.h:1694-1698 | two fractions in lowest terms are the same number exactly when numerators and denominators agree, so results stated as numbers are known field by field |
| `Integers.PlusZU` | app/src/main/jni/gmpxx.h:187-197 | integer plus unsigned word, in place or not, with the known-zero shortcut |
| `Integers.PlusZS` | app/src/main/jni/gmpxx.h:200-206 | integer plus long, by adding or subtracting the magnitude |
| `Integers.MinusZU` | app/src/main/jni/gmpxx.h:293-301 | integer minus unsigned word |
| `Integers.MinusUZ` | app/src/main/jni/gmpxx.h:302-310 | unsigned word minus integer |
| `Integers.MinusZS` | app/src/main/jni/gmpxx.h:311-317 | integer minus long |
| `Integers.MinusSZ` | app/src/main/jni/gmpxx.h:318-327 | long minus integer, through a negation of the destination |
| `Integers.LShift` | app/src/main/jni/gmpxx.h:436-444 | left shift multiplies by 2^n |
| `Integers.RShift` | app/src/main/jni/gmpxx.h:460-468 | right shift is division by 2^n rounded toward minus infinity |
| `Integers.TimesZU` | app/src/main/jni/gmpxx.h:487-505 | product with an unsigned word; the zero and power-of-two fast paths give the same product |
| `Integers.TimesZS` | app/src/main/jni/gmpxx.h:508-519 | product with a long, known constants by way of the unsigned case |
| `Integers.DivZU` | app/src/main/jni/gmpxx.h:611-628 | truncated quotient by an unsigned word, the fast paths included |
| `Integers.DivUZ` | app/src/main/jni/gmpxx.h:629-649 | truncated quotient of an unsigned word by an integer, in every fits / does-not-fit and sign branch, in place or not |
| `Integers.DivZS` | app/src/main/jni/gmpxx.h:650-659 | truncated quotient by a long, negative divisors by way of the magnitude |
| `Integers.DivSZ` | app/src/main/jni/gmpxx.h:660-670 | truncated quotient of a long by an integer, with the native division, whose result must be a long, wherever the divisor fits |
| `Integers.ModUZ` | app/src/main/jni/gmpxx.h:767-784 | remainder of an unsigned word by an integer, of the word's sign |
| `Integers.ModZS` | app/src/main/jni/gmpxx.h:785-788 | remainder by a long is the remainder by its magnitude |
| `Integers.ModSZ` | app/src/main/jni/gmpxx.h:789-799 | remainder of a long by an integer, native where the divisor fits, with LONG_MIN by -LONG_MIN giving 0 |
| `Integers.BitsWZ` | app/src/main/jni/gmpxx.h:813-818 | word-first bitwise operation, computed with the operands exchanged |
| `Integers.EvalZW` | app/src/main/jni/gmpxx.h:182-207 | whatever the operator and the kind of word, integer op word is the mathematical operation |
| `Integers.EvalWZ` | app/src/main/jni/gmpxx.h:629-670 | whatever the operator and the kind of word, word op integer is the mathematical operation |
| `Fractions.QArith` | app/src/main/jni/gmpxx.h:214-215 | sum, difference, product and quotient of fractions, in lowest terms and equal to the real result |
| `Fractions.EvalQQ` | app/src/main/jni/gmpxx.h:676-677 | the mpq operation on cells, which may be shared between destination and operands |
| `Fractions.NegQ` | app/src/main/jni/gmp.h:1886-1892 | negation in place or not |
| `Fractions.AbsQ` | app/src/main/jni/gmp.h:1876-1882 | magnitude in place or not |
| `Fractions.PlusQZ` | app/src/main/jni/gmpxx.h:246-256 | rational plus integer keeps the denominator, is exact and stays in lowest terms; q = r handled apart |
| `Fractions.MinusQZ` | app/src/main/jni/gmpxx.h:370-380 | rational minus integer, likewise |
| `Fractions.MinusZQ` | app/src/main/jni/gmpxx.h:381-382 | integer minus rational by negation |
| `Fractions.PlusQU` | app/src/main/jni/gmpxx.h:217-234 | rational plus unsigned word, with its shortcuts and both aliasing cases |
| `Fractions.MinusQU` | app/src/main/jni/gmpxx.h:336-353 | rational minus unsigned word |
| `Fractions.PlusQW` | app/src/main/jni/gmpxx.h:425-432 | rational plus any word |
| `Fractions.MinusQW` | app/src/main/jni/gmpxx.h:356-362 | rational minus any word |
| `Fractions.Increment` | app/src/main/jni/gmpxx.h:1058-1059 | ++q adds exactly one and keeps lowest terms |
| `Fractions.Decrement` | app/src/main/jni/gmpxx.h:1066-1067 | --q subtracts exactly one and keeps lowest terms |
| `Fractions.LShiftQ` | app/src/main/jni/gmpxx.h:445-453 | left shift doubles the number n times |
| `Fractions.RShiftQ` | app/src/main/jni/gmpxx.h:469-477 | right shift halves the number n times, with no rounding |
| `Fractions.DoubledHalved` | app/src/main/jni/gmpxx.h:469-477 | doubling and halving n times are multiplying and dividing by 2^n, the scale a shift by n stands for |
| `Fractions.TimesQU` | app/src/main/jni/gmpxx.h:530-550 | product with an unsigned word, fast paths included |
| `Fractions.DivQU` | app/src/main/jni/gmpxx.h:679-690 | quotient by an unsigned word, fast paths included |
| `Fractions.TimesQW` | app/src/main/jni/gmpxx.h:553-567 | product with any word |
| `Fractions.DivQW` | app/src/main/jni/gmpxx.h:693-707 | quotient by any word |
| `Fractions.EvalWQ` | app/src/main/jni/gmpxx.h:708-709 | word op rational is the real operation for every operator |
| `Fractions.EvalQZ` | app/src/main/jni/gmpxx.h:246-256 | addition and subtraction of an integer, in lowest terms and exact |
| `Fractions.EvalZQ` | app/src/main/jni/gmpxx.h:257-258 | addition to and subtraction from an integer, in lowest terms and exact |
| `Expressions.EvalZ` | app/src/main/jni/gmpxx.h:2178-2578 | for every integer tree and every destination, which may occur anywhere in the tree, the destination ends with the tree's value in the initial store and no other variable changes |
| `Expressions.UnaryExact` | app/src/main/jni/gmpxx.h:164-180 | each unary operator gives the one integer with its meaning: the operand itself, the sum zero with it, every bit turned over, or the nonnegative one of the operand and its negation |
| `Expressions.UnaryZ` | app/src/main/jni/gmpxx.h:164-180 | the destination gets that integer, for the operand before the call, which may be the same variable |
| `Expressions.TempZ` | app/src/main/jni/gmpxx.h:2138-2147 | a temporary holding a subtree's value leaves the store alone |
| `Expressions.EvalQ` | app/src/main/jni/gmpxx.h:2178-2578 | for every rational tree, mixed with integers and words, the destination ends in lowest terms with the tree's value in the initial store and no other cell changes |
| `Expressions.EvalQWord` | app/src/main/jni/gmpxx.h:2288-2303 | a node with one machine word |
| `Expressions.EvalQBinary` | app/src/main/jni/gmpxx.h:2308-2376 | a node with two rational operands gets its value, in lowest terms, whether the destination is the left operand, the right, both or neither |
| `Expressions.EvalQWithZ` | app/src/main/jni/gmpxx.h:2609-2712 | rational with integer for all four operators: the plus and minus specializations and the generic ones |
| `Expressions.EvalZWithQ` | app/src/main/jni/gmpxx.h:2591-2690 | integer with rational for all four operators, likewise |
| `Expressions.SetQFromZ` | app/src/main/jni/gmpxx.h:2080-2090 | a rational set from an integer tree is that integer over 1 |
| `Expressions.SetZFromQ` | app/src/main/jni/gmpxx.h:2066-2071 | an integer set from a rational tree is its value rounded toward zero |
| `Expressions.TruncatedFraction` | app/src/main/jni/gmp.h:1855-1858 | dividing numerator by denominator with truncation is rounding the number toward zero |
| `Expressions.CompoundZ` | app/src/main/jni/gmpxx.h:2942-2950 | x op= tree with x in the tree: the right-hand side is read before x changes |
| `Expressions.CompoundQ` | app/src/main/jni/gmpxx.h:2942-2950 | the same for rationals |
| `Expressions.CompoundZFromQ` | app/src/main/jni/gmpxx.h:2066-2071 | integer op= rational tree applies the operation to the rounded tree, and raises the division error when a divisor is rounded to zero; the outcome is the exact result rounded once if and only if RoundsOnce holds |
| `Rounding.RoundsOnceExactly` | app/src/main/jni/gmpxx.h:2942-2950 | for each of the four operators and every operand with an exact result (any but a zero divisor), the operation on the rounded operand is defined and gives the exact result rounded toward zero if and only if RoundsOnce holds, a condition on the rounded operand and the part dropped |
| `Rounding.RoundingTwiceDiffers` | app/src/main/jni/gmpxx.h:2942-2950 | an operand for each operator on which the two differ, such as 2 · 1/2, and 1 divided by 1/2, which rounding turns into a division by zero |
| `Rounding.RoundsToZero` | app/src/main/jni/gmpxx.h:2066-2071 | exactly the operands strictly between -1 and 1 are rounded to zero |
| `Rounding.QuotientRoundsOnce` | app/src/main/jni/gmpxx.h:2942-2950 | for a divisor not rounded to zero: the quotient by the rounded divisor is right if and only if quotient times dropped part stays within the remainder, in magnitude |
| `Limbs.ValueInjective` | app/src/main/jni/gmp.h:43-44 | limb vectors of one length are equal exactly when their values are |
| `Limbs.AorsN` | app/src/main/jni/gmp.h:1923-1926 | equal-length ripple addition and subtraction, destination equal to or disjoint from the operands |
| `Limbs.CopyRest` | app/src/main/jni/gmp.h:2105-2116 | copies the limbs from start to size and no others |
| `Limbs.Propagate` | app/src/main/jni/gmp.h:1926-1937 | the carry goes up to the limb that absorbs it or past the last one; the sum up to there is exact and no limb above is written |
| `Limbs.Aors` | app/src/main/jni/gmp.h:1913-1945 | addition and subtraction of a shorter number with early exit and copying of the rest |
| `Limbs.Add` | app/src/main/jni/gmp.h:2131-2137 | Value(w) + c·B^n = Value(x) + Value(y), carry c in {0, 1} |
| `Limbs.Sub` | app/src/main/jni/gmp.h:2187-2192 | Value(w) - c·B^n = Value(x) - Value(y), borrow c in {0, 1} |
| `Limbs.Aors1` | app/src/main/jni/gmp.h:1980-2015 | adding or subtracting one limb: the wrap-around tests decide the carry exactly, and the early exit is right |
| `Limbs.Add1` | app/src/main/jni/gmp.h:2145-2150 | Value(dst) + c·B^n = Value(src) + v |
| `Limbs.Sub1` | app/src/main/jni/gmp.h:2200-2205 | Value(dst) - c·B^n = Value(src) - v |
| `Limbs.Cmp` | app/src/main/jni/gmp.h:2069-2089 | the scan from the top limb returns the sign of the difference |
| `Limbs.ZeroP` | app/src/main/jni/gmp.h:2171-2179 | true exactly for the value 0 |
| `Limbs.Neg` | app/src/main/jni/gmp.h:2213-2229 | Value(r) = c·B^n - Value(u), with c = 0 exactly for the value 0, in place or not |
| `Limbs.SubUndoesAdd` | app/src/main/jni/gmp.h:2187-2192 | subtracting what was added restores every limb and returns the carry as the borrow |
| `Limbs.AddThenSub` | app/src/main/jni/gmp.h:2131-2192 | the two operations run in place, one after the other, change nothing |
| `Limbs.NegTwice` | app/src/main/jni/gmp.h:2213-2229 | negating twice is the identity with the same return value |
| `MpzLimbs.NormalUnique` | app/src/main/jni/gmpxx.h:85-106 | an integer has exactly one normalised sign-magnitude form |
| `MpzLimbs.FitsDecided` | app/src/main/jni/gmp.h:1722-1727 | looking at the size and one limb decides whether the integer lies in 0 .. maxval |
| `MpzLimbs.MpzStruct.SetUISafe` | app/src/main/jni/gmpxx.h:85-94 | builds the normalised form of every unsigned long |
| `MpzLimbs.MpzStruct.SetSISafe` | app/src/main/jni/gmpxx.h:96-106 | builds the normalised form of every long, LONG_MIN included |
| `MpzLimbs.MpzStruct.Neg` | app/src/main/jni/gmp.h:1804-1812 | negates, in place or not |
| `MpzLimbs.MpzStruct.Absolute` | app/src/main/jni/gmp.h:1706-1714 | takes the magnitude, in place or not |
| `MpzLimbs.MpzStruct.FitsULongP` | app/src/main/jni/gmp.h:1740-1749 | true exactly for values in 0 .. ULONG_MAX |
| `MpzLimbs.MpzStruct.GetUI` | app/src/main/jni/gmp.h:1766-1787 | the magnitude modulo 2^32 |
| `MpzLimbs.MpzStruct.SetThenGet` | app/src/main/jni/gmp.h:1766-1787 | an unsigned long set and read back is unchanged |
| `JsonTheorems.ParseStringify` | jsapp/json_datagram_socket.js:104 | parsing what was serialized gives the value back, for every JSON value |
| `JsonTheorems.NoNewline` | jsapp/json_datagram_socket.js:105 | serialized text contains no line feed, so the terminator is unambiguous |
| `JsonTheorems.Tokens` | jsapp/json_datagram_socket.js:104 | the literals are the words null, true and false, and the terminator is the line feed |
| `JsonTheorems.Escapes` | jsapp/json_datagram_socket.js:104 | printable units stand for themselves; quotes, backslashes and control units are escaped |
| `JsonTheorems.Punctuation` | jsapp/json_datagram_socket.js:104 | strings, arrays and objects carry the quotes, brackets, commas and colons of RFC 8259 |
| `JsonTheorems.NonNumberPrefix` | jsapp/json_datagram_socket.js:90-97 | no proper beginning of a serialized value other than a number parses |
| `JsonTheorems.ParsableBeginning` | jsapp/json_datagram_socket.js:90-97 | a serialized value has a proper beginning that parses exactly when it is a number with more than one character after its sign |
| `DatagramSocket.JsonDatagramSocket.TryReadMessage` | jsapp/json_datagram_socket.js:71-101 | the loop over complete lines and the eager look at the last one is the reader step about which SplittingExact speaks |
| `DatagramSocket.JsonDatagramSocket.OnData` | jsapp/json_datagram_socket.js:43-49 | one data event, ignored after destroy |
| `DatagramSocket.JsonDatagramSocket.Write` | jsapp/json_datagram_socket.js:103-106 | appends the serialized message and a line feed |
| `DatagramSocket.JsonDatagramSocket.WriteAll` | jsapp/json_datagram_socket.js:103-106 | a sequence of writes puts the stream of those messages on the wire |
| `DatagramSocket.ReadLinesEmits` | jsapp/json_datagram_socket.js:77-88 | reading lines one at a time, the first continuing the buffer, is the loop over split lines |
| `DatagramSocket.SplitFeeds` | jsapp/json_datagram_socket.js:74-75 | splitting the buffer at line feeds is a machine that reads one character at a time |
| `DatagramSocket.ReceiveIs` | jsapp/json_datagram_socket.js:43-49 | a data event is that machine run over the chunk, followed by the eager look |
| `DatagramSocket.FeedUnitBalanced` | jsapp/json_datagram_socket.js:77-88 | reading one character keeps emitted plus still-owed messages equal to those sent |
| `DatagramSocket.EagerBalanced` | jsapp/json_datagram_socket.js:90-100 | emitting an unterminated message neither loses nor repeats one: its line feed later yields an empty line |
| `DatagramSocket.RunBalanced` | jsapp/json_datagram_socket.js:71-101 | from every balanced state every splitting of the rest emits exactly the messages owed, in order |
| `DatagramSocket.LongNumberSplits` | jsapp/json_datagram_socket.js:90-100 | for every message list with a longer bare number there is a splitting that is read wrongly: after the messages before it the first digit is emitted |
| `DatagramSocket.FramingExact` | jsapp/json_datagram_socket.js:71-106 | reading is correct for every splitting of the stream if and only if no message is a bare number of more than one digit |
| `DatagramSocket.SplittingExact` | jsapp/json_datagram_socket.js:71-101 | one splitting of the stream, long numbers included, is read correctly if and only if no chunk ends inside a message where the part so far parses |
| `DatagramSocket.CutsBalanced` | jsapp/json_datagram_socket.js:71-101 | the same from every balanced state of the reader |
| `DatagramSocket.EagerWhole` | jsapp/json_datagram_socket.js:90-100 | a complete message is emitted before its line feed, whatever the message |
| `DatagramSocket.EagerAtCut` | jsapp/json_datagram_socket.js:90-100 | the look at an unterminated line that parses emits the message owed when the line feed is next, and something else otherwise |
| `DatagramSocket.JunkIsSkipped` | jsapp/json_datagram_socket.js:77-88 | a line that is no JSON text is skipped and the messages around it are read |
| `WakeQueue.DoKeepsValid` | app/src/main/jni/node-launcher.cpp:141-147 | every step of a producer or of the loop keeps handled ++ batch ++ list equal to what was accepted, and a non-empty list always has a wake-up coming |
| `WakeQueue.WorkDecreases` | app/src/main/jni/node-launcher.cpp:102-114 | every step that brings no new call reduces the work left |
| `WakeQueue.StuckMeansDone` | app/src/main/jni/node-launcher.cpp:102-114 | where no such step is possible everything accepted has been handled, although wake-ups coalesce |
| `WakeQueue.EveryScheduleDrains` | app/src/main/jni/node-launcher-module.hpp:62-68 | every schedule of such steps ends within a bound, with everything handled in order |
| `NodeCalls.NextKeeps` | app/src/main/jni/node-launcher.cpp:102-161 | every step of callers, loop and JavaScript promises keeps the protocol's invariant |
| `NodeCalls.ExactlyOnceInOrder` | app/src/main/jni/node-launcher.cpp:102-125 | in every run executed ++ current batch ++ queued is the order in which calls were enqueued |
| `NodeCalls.WakeUpComing` | app/src/main/jni/node-launcher.cpp:102-104 | in every run no wake-up is lost, and no drain starts before the receiver is set |
| `NodeCalls.FutureHoldsOwnResult` | app/src/main/jni/node-launcher-marshal.cpp:217-279 | in every run a drained synchronous call carries use_return, its future is the one of that call, and what a caller has collected is what the future holds |
| `NodeCalls.ResultExact` | app/src/main/jni/node-launcher-marshal.cpp:217-279 | in every run the future of a drained synchronous call holds a value if and only if the call returned it or its promise was first fulfilled with it, an exception if and only if it threw it or was first rejected with it, the invalid-argument error if and only if the value cannot be marshalled, and nothing if and only if its promise is open |
| `NodeCalls.SettlingAnswers` | app/src/main/jni/node-launcher-marshal.cpp:240-279 | settling an open promise gives the blocked caller that value or exception |
| `NodeCalls.HistoryIsTheRun` | app/src/main/jni/node-launcher.cpp:141-161 | in every run the calls accepted are those made, with their functions, arguments and kind, in order, and the replies and first settlements are those that happened |
| `NodeCalls.CallersLetIn` | app/src/main/jni/node-launcher.cpp:127-161 | callers are let in once the loop and the receiver are set, and not before |
| `NodeCalls.OneOwner` | app/src/main/jni/node-launcher-marshal.cpp:296-324 | an unset result slot is owned by exactly one of the queued call and the promise holder; a set one by neither; none is set twice |
| `NodeCalls.SetForGood` | app/src/main/jni/node-launcher-marshal.cpp:248-259 | a result once set stays through every continuation of the run |
| `NodeCalls.QuietMeansRun` | app/src/main/jni/node-launcher.cpp:102-125 | when no thread has a step left every accepted call has run |
| `NodeCalls.EveryScheduleAnswers` | app/src/main/jni/node-launcher.cpp:149-161 | in every schedule without new calls, with promises settling and callers collecting at any point, the threads take a bounded number of steps, and when none is left every synchronous caller has its result unless its call left a promise open |
| `NodeCalls.CallQueue.InvokeAsync` | app/src/main/jni/node-launcher.cpp:141-147 | append, signal, unlock, as those steps of the protocol |
| `NodeCalls.CallQueue.InvokeSync` | app/src/main/jni/node-launcher.cpp:149-161 | append, take the future, signal, unlock, in that order, under the lock |
| `NodeCalls.CallQueue.GetReturnValue` | app/src/main/jni/node-launcher-marshal.hpp:194-198 | the protocol step: the call just appended, and no other, gets a slot, which is unset, before the lock is given up |
| `NodeCalls.GetFutureKeeps` | app/src/main/jni/node-launcher-marshal.hpp:194-198 | that step keeps the invariant by which exactly the flagged calls have a slot |
| `NodeCalls.CallQueue.Get` | app/src/main/jni/node-launcher.cpp:160 | returns exactly the content of the slot, and blocks while there is none |
| `NodeCalls.CallQueue.SetNodeReceiver` | app/src/main/jni/node-launcher.cpp:133-139 | the receiver is known before callers are let through |
| `NodeCalls.CallQueue.Invoke` | app/src/main/jni/node-launcher-marshal.cpp:296-324 | threw, returned a promise, or returned a value: what each does to slot and holder |
| `NodeCalls.CallQueue.InvokeAll` | app/src/main/jni/node-launcher.cpp:115-124 | the loop over the batch is the invocations in order |
| `NodeCalls.CallQueue.RunAllAsyncs` | app/src/main/jni/node-launcher.cpp:102-125 | one wake-up takes the whole list and runs it; afterwards everything accepted has been handled |
| `NodeCalls.CallQueue.ThenPromise` | app/src/main/jni/node-launcher-marshal.cpp:240-260 | completes the promise unless the holder is empty already |
| `NodeCalls.CallQueue.CatchPromise` | app/src/main/jni/node-launcher-marshal.cpp:262-279 | the same with an exception |
| `JavaPromises.NextKeeps` | app/src/main/jni/node-launcher.cpp:274-333 | every step of JavaScript, pool threads and loop keeps the invariant of ids, table and resolvers |
| `JavaPromises.FateIsOwn` | app/src/main/jni/node-launcher.cpp:274-333 | in every run each promise is settled by its own failed submission or the first completion with its id before Deinit, or is open: in the table, or dropped by Deinit |
| `JavaPromises.ReportDecides` | app/src/main/jni/node-launcher.cpp:317-333 | in every run the first report about a promise to be handled in time decides it: resolved with a text if and only if that is the result and there is no error, rejected with a message if and only if that is the error |
| `JavaPromises.ReportsAreTheRun` | app/src/main/jni/node-launcher.cpp:420-441 | in every run the completions accepted are the reports made whose result can be marshalled, in order, each with its id, error and result; and each call has its resolver |
| `JavaPromises.RegisteredIsCalled` | app/src/main/jni/node-launcher.cpp:274-305 | a call of a registered function gets the next id, an entry in the table and an open promise |
| `JavaPromises.RefusalRejects` | app/src/main/jni/node-launcher.cpp:306-312 | when the executor throws, the promise is rejected with the reason and forgotten |
| `JavaPromises.UnknownIsRejected` | app/src/main/jni/node-launcher.cpp:280-288 | a call of any other function is rejected with its message and leaves ids and table alone |
| `JavaPromises.IdsUnique` | app/src/main/jni/node-launcher.cpp:280-302 | in every run ids and the calls that got one determine each other, all below next_promise_id; unknown functions get none and are rejected |
| `JavaPromises.LateChangesNothing` | app/src/main/jni/node-launcher.cpp:317-327 | a completion changes nothing exactly when it is a duplicate, its submission failed, or the invoker is gone |
| `JavaPromises.SettledForGood` | app/src/main/jni/node-launcher.cpp:317-333 | a settled promise keeps its outcome through every continuation |
| `JavaPromises.ReportedMeansSettled` | app/src/main/jni/node-launcher.cpp:420-441 | when the native queue is at rest before Deinit every id reported back is settled |
| `JavaPromises.EveryDeliverySettles` | app/src/main/jni/node-launcher.cpp:163-176 | every schedule of the queue steps comes to rest within a bound, and then every promise whose completion was reported is settled |
| `JavaPromises.JavaInvoker.InvokeAsync` | app/src/main/jni/node-launcher.cpp:274-315 | allocation, table entry, submission of the id with the registered callback, and its failure; the state of the promise returned |
| `JavaPromises.JavaInvoker.CompletePromise` | app/src/main/jni/node-launcher.cpp:317-333 | settles the promise with the id and forgets it; unknown ids change nothing |
| `JavaPromises.JavaInvoker.Deinit` | app/src/main/jni/node-launcher.cpp:217-230 | forgets functions and pending promises |
| `Base64.LetterExact` | app/src/main/jni/nan/nan_string_bytes.h:159-161 | the 64-character table and its inverse |
| `Base64.SextetBits` | app/src/main/jni/nan/nan_string_bytes.h:168-175 | the shift-and-mask expressions are the four sextets of the 24-bit group of section 4 of RFC 4648 |
| `Base64.BlockExact` | app/src/main/jni/nan/nan_string_bytes.h:167-200 | a decoder accepts exactly the quadruples written for one, two and three bytes, padding included |
| `Base64.Base64Exact` | app/src/main/jni/nan/nan_string_bytes.h:142-203 | for all bytes s and texts t, t decodes to s if and only if t is the encoding of s |
| `Base64.PaddingExact` | app/src/main/jni/nan/nan_string_bytes.h:178-200 | an equals sign stands for each byte missing from the last group and nowhere else |
| `Base64.Vector` | app/src/main/jni/nan/nan_string_bytes.h:142-203 | the test vector foo of section 10 of RFC 4648 |
| `Base64.SizeIsExact` | app/src/main/jni/nan/nan_string_bytes.h:37 | the size macro is the length of the encoding |
| `Base64.SizeRoundsUp` | app/src/main/jni/nan/nan_string_bytes.h:37 | and is four for every three bytes, rounded up |
| `Base64.Base64Encode` | app/src/main/jni/nan/nan_string_bytes.h:142-203 | up to 2^32 characters, writes the encoding into exactly its size and leaves the rest of the buffer alone; for longer ones writes nothing past the first 2^32 |
| `Base64.CutGroups` | app/src/main/jni/nan/nan_string_bytes.h:165 | keeping 32 bits of the length of the whole groups is harmless up to 2^32 characters |
| `Hex.HexExact` | app/src/main/jni/nan/nan_string_bytes.h:206-220 | for all bytes s and texts t, t decodes to s if and only if t is the encoding of s |
| `Hex.PairExact` | app/src/main/jni/nan/nan_string_bytes.h:215-216 | the two digits of a byte, and only they, decode to it |
| `Hex.Vector` | app/src/main/jni/nan/nan_string_bytes.h:206-220 | the high digit comes first, as in a test vector of section 10 of RFC 4648 |
| `Hex.HexEncode` | app/src/main/jni/nan/nan_string_bytes.h:206-220 | writes the encoding into exactly twice the length and leaves the rest of the buffer alone |
| `Hex.LoopEnds` | app/src/main/jni/nan/nan_string_bytes.h:212 | the loop comes to an end if and only if twice the length is below 2^32; the assertion at line 227 excludes all other lengths |
| `BufferText.AcceptedFits` | app/src/main/jni/nan/nan_string_bytes.h:227 | for every buffer that passes the assertion of the only caller both encoders stay within their 32-bit counters |
| `BufferText.Encode` | app/src/main/jni/nan/nan_string_bytes.h:224-299 | every buffer that passes the assertion is encoded, in base64 or hex, to the one text that decodes to it |
| `AsciiScan.MaskedWord` | app/src/main/jni/nan/nan_string_bytes.h:73-77 | a masked word is not zero exactly when one of the bytes the mask covers is not ASCII |
| `AsciiScan.HeadAligns` | app/src/main/jni/nan/nan_string_bytes.h:60-65 | after the head the words are aligned |
| `AsciiScan.ContainsNonAsciiSlow` | app/src/main/jni/nan/nan_string_bytes.h:43-48 | true exactly when some byte of the range is not ASCII |
| `AsciiScan.ScanWords` | app/src/main/jni/nan/nan_string_bytes.h:73-77 | the word loop sees exactly the covered bytes of the words |
| `AsciiScan.ContainsNonAscii` | app/src/main/jni/nan/nan_string_bytes.h:51-87 | head, words and tail together see every byte but those the mask leaves out, and read inside the buffer only |
| `AsciiScan.ScanAgrees` | app/src/main/jni/nan/nan_string_bytes.h:68-72 | the fast scan agrees with the byte scan on every content if and only if the buffer is shorter than 16 or the mask covers the word |
| `Preferences.WireRoundTrip` | app/src/main/java/edu/stanford/thingengine/engine/jsapi/SharedPreferencesAPI.java:45-55 | what is sent to Java as JSON text arrives there, in order |
| `Preferences.LooksLikeAMap` | jsapp/platform.js:64-107 | every run of set, get and timer steps gives the results of a plain map, and the store with the buffered writes applied is that map |
| `Preferences.TimerWritesEverything` | jsapp/platform.js:93-106 | a non-empty buffer has a timer outstanding; when it fires the store is the map and the next write may start a timer |
| `Preferences.OneTimer` | jsapp/platform.js:84-106 | after a write exactly one timer is outstanding; a read empties the buffer and starts none |
| `Preferences.AndroidSharedPreferences.WriteSharedPref` | app/src/main/java/edu/stanford/thingengine/engine/jsapi/SharedPreferencesAPI.java:45-55 | applies the writes in order |
| `Preferences.AndroidSharedPreferences.FlushWrites` | jsapp/platform.js:70-82 | empties the buffer into the store |
| `Preferences.AndroidSharedPreferences.Get` | jsapp/platform.js:84-91 | returns the last value set, or the stored one |
| `Preferences.AndroidSharedPreferences.Set` | jsapp/platform.js:93-106 | buffers the write and starts a timer unless one is running |
| `Preferences.AndroidSharedPreferences.OnTimer` | jsapp/platform.js:100-103 | flushes and allows the next timer |
| `InteropValues.NextKeeps` | app/src/main/jni/node-launcher-marshal.hpp:105-136 | construction, initialisation, copy, move and destruction keep single ownership of every block |
| `InteropValues.OwnedAndFreedOnce` | app/src/main/jni/node-launcher-marshal.cpp:44-56 | in every run each live block has one owner, no block is freed twice, and the blocks not freed are the live ones |
| `InteropValues.FreedExactly` | app/src/main/jni/node-launcher-marshal.cpp:44-56 | in every run a block has been freed if and only if no object owns it |
| `InteropValues.FreedByOwner` | app/src/main/jni/node-launcher-marshal.cpp:44-47 | a step frees a block if and only if it destroys the object that owns it |
| `InteropValues.NothingLeaks` | app/src/main/jni/node-launcher-marshal.cpp:44-47 | destroying all objects after any run leaves no block that is not freed |
| `InteropValues.AliveAfter` | app/src/main/jni/node-launcher-marshal.hpp:105-136 | which objects exist after each operation; a copy with memory available is one of them |
| `InteropValues.ValuesAreOwn` | app/src/main/jni/node-launcher-marshal.hpp:108-126 | a copy has the value of the original, a move transfers it, and no operation changes another object's value |
| `InteropValues.Objects.CopyConstruct` | app/src/main/jni/node-launcher-marshal.hpp:108-116 | duplicates the block, or constructs nothing when there is no memory |
| `InteropValues.Objects.MoveConstruct` | app/src/main/jni/node-launcher-marshal.hpp:118-126 | takes the block over and leaves a null one |
| `InteropValues.Objects.DestroyObject` | app/src/main/jni/node-launcher-marshal.hpp:128-136 | the object is gone, and the block it owned, and no other, is freed |

## Left out

- Integers.DivSZ: demands that (l, w) is not (LONG_MIN, -1), where the C++ program has no defined result.
- Expressions.EvalZ: division by zero and the native overflow anywhere in the tree are excluded, as in the source; temporaries never fail for want of memory.
- Expressions.EvalQ: demands that the rational variables of the tree are in lowest terms, which the two-argument constructor of mpq_class does not establish, and that two different rationals share no cell.
- Hex.HexEncode: demands that twice the length is below 2^32, exactly where the loop of the source ends; the assertion at app/src/main/jni/nan/nan_string_bytes.h:227 admits no other length.
- Base64.Base64Encode: does not say what the first 2^32 characters become when the encoding is longer and the 32-bit counters wrap around; the assertion at app/src/main/jni/nan/nan_string_bytes.h:227 excludes such lengths. size_t is unbounded.
- BufferText.Encode: the encodings other than base64 and hex, and the V8 string made from the text.
- JavaPromises.FateIsOwn: promise ids are unbounded; the source's id is a 64-bit jlong and would wrap.
- JavaPromises.ReportedMeansSettled: a result that cannot be marshalled is dropped by completePromise before it reaches the queue, so such a promise stays open until Deinit.
- NodeCalls.EveryScheduleAnswers: assumes that the receiver returns; a synchronous call made on the loop thread itself would block it.
- NodeCalls.CallQueue.InvokeAsync: starts after the wait for `initialized`; in the state machine a caller that has to wait is an action not enabled.
- NodeCalls.CallQueue.SetNodeReceiver: demands that uv_async_init has run, which the launch script does first.
- The out-of-line GMP functions (mpz_*, mpq_*) are single assignments on integers and fractions; mpn_add_n, mpn_sub_n and mpn_com are plain loops.
- Floating point (mpf_*, double operands), square roots, gcd and lcm functions, comparison operators, random numbers, string conversion and numeric_limits of gmpxx.h.
- GMP_NAIL_BITS other than 0.
- V8, libuv, JNI and the Java library: a signal leads to a later callback, and the arguments and results of calls are opaque strings.
- Microtasks and the log lines for lost exceptions.
- JSON values are those with a JSON text: undefined, functions and toJSON are not modelled, and a number is its token rather than a double. An object is a list of members; one that repeats a key, which no JavaScript object does and JSON.parse would collapse, is admitted and comes back as it was.
- The end and close events, character decoding and back-pressure of the socket.
- force_ascii: out of scope.
- A failing writeSharedPref loses its batch by design; writes do not fail here except for text that is not JSON, which is proved not to occur.
- InteropValues.Objects.CopyConstruct: u16string storage is a value; only the malloc'ed blocks of buffers are tracked, and objects are entries of a map instead of memory locations.
- InitFromJS and InitFromJava as conversions: which values can be marshalled is a parameter.
- Launching, asset reading, the other JavaScript modules, the SMT solver client and the user interface.
