# Verified model of the Ethos-U user space stack

This project models the four parts of the repository that hold its loops, index arithmetic and state, and proves what
they compute.

1. **Input images** (`Bytes`, `Layout`, `Doubles`, `Resize`, `IndexRounding`, `ResizeIndex`, `ResizeLaws`, `BmpDecode`,
   `BmpEncode`, `Tensor`). `getInputFromFile` decodes a padded, bottom-up BGR bitmap into a scratch buffer, resamples it
   to the tensor's size and re-biases the bytes. The loops are methods over arrays, proved against closed-form functions
   of the file. The quotients of the resize are doubles, rounded to 53 bits with ties to even (IEEE 754-2008, sections
   3.6 and 4.3.1); the index they yield is proved admissible, that is nearest (or floored) up to exact ties, and the laws
   of the resize are proved for admissible indices. An independent bitmap writer then shows that decoding inverts
   encoding, and which pixel of the encoded image every tensor element is. The layout is the DIB layout of [MS-WMF],
   section 2.2.2.3.
2. **Classification results** (`MinHeap`, `TopN`). `getTopN` keeps at most four entries in a min-heap held in a vector. The
   heap is proved by its rise and sink steps, and the result is the head of a reference insertion sort.
3. **Firmware log** (`DevMem`, `LogRing`, `Dts`). Bounded access to mapped memory, `Log::print` and `Log::clear` as
   methods over it, and the ring as a protocol in which firmware appends between any two accesses of the daemon. The
   device tree reader that finds the ring is proved to invert a writer of `reg-names` and `reg`
   (Devicetree Specification, sections 2.2.4, 2.3.5 and 2.3.6).
4. **Driver library** (`Ownership`, `DriverLibrary`, `Session`, `Interpreter`, `SharedLibrary`). Every descriptor,
   mapping and shared pointer of Device, Buffer, Network and Inference objects, over a kernel in which any creating call
   may fail. The invariant holds after every single kernel call, also in the middle of a constructor that unwinds or of a
   destructor, and for any client program, also one that destroys a device before the networks made on it.

Findings that follow from the code and differ from what its text suggests:

- A negative height does not give a top-down image: no pixel is decoded and the result is all zero, with status 0
  (`TopDownIsBlank`).
- The colour depth is read as 32 bits, so a file is accepted exactly when the low half of its compression field is zero
  (`EncodingAcceptedIff`).
- The int8 conversion subtracts 127, not 128, so a pixel of 255 wraps round to the darkest value (`RebiasOrder`).
- Three-channel resizing is undone by resizing back exactly when no side shrinks (`ColourLosslessIff`). For one channel a
  whole enlargement factor f is needed but not enough: in doubles i / (1 / f) must not fall short of i * f. Powers of two
  qualify; a factor of 93 loses column 1 of every picture (`GreyLosslessIff`, `GreyPowersOfTwoLossless`,
  `GreyLossAt93`).
- At an exact tie the rounded quotient may pick the lower neighbour: enlarging 7 columns to 18, column 9 shows source
  column 3, although 3.5 rounds to 4 (`ColourTieGoesDown`).
- A network does not keep its device open. Destroying the device first leaves the network open without it, exactly when
  an open network refers to it; nothing leaks all the same (`CloseDevice`, `DeviceFirst`, `Program`).
- `getInputFromFile` ignores the decoder's -1 and converts whatever the tensor held (`GetInputFromFile`). It passes
  `shape[1]` as the width and `shape[2]` as the height.
- `ethosu_logd --address` maps zero bytes and always fails (`ExplicitAddressAlwaysFails`).
- The byte-order test inspects a value, not memory, and is never true, so integers, and lookups in the device tree, are
  right exactly on a little-endian host (`ToCpuReadsBigEndianIff`, `LookupRightIff`).
- `Inference::create` accepts sixteen inputs, but the arena takes the first of the sixteen slots (`Create`).

## Model

| member | source | states |
|---|---|---|
| Resize.ImageResize | utils/inference_runner/common/image_decode_bmp.cpp:98-163 | Writes exactly the channels * width * height destination bytes, each the source pixel at the indices the doubles give, or zero, whatever was there before, and no byte after them; other channel counts and empty sizes write nothing. |
| Resize.ZeroFill | utils/inference_runner/common/image_decode_bmp.cpp:110-144 | The zeroing loop, which walks the rows last to first, covers the whole destination and nothing else. |
| Resize.SamplePass | utils/inference_runner/common/image_decode_bmp.cpp:118-161 | The sampling loops, with dx and dy computed once, leave each destination byte equal to the closed form. |
| Resize.PixelBytes | utils/inference_runner/common/image_decode_bmp.cpp:126-157 | The flat positions the inner loops compute are the row-major ones and in range: a pixel's bytes are the source bytes at the computed offset, or zeros when the index falls outside. |
| Doubles.RoundIsNear | utils/inference_runner/common/image_decode_bmp.cpp:101-102 | A double operation is off by at most 2^-53, relatively. |
| Doubles.RoundMonotone | utils/inference_runner/common/image_decode_bmp.cpp:101-102 | Rounding to double keeps the order. |
| Doubles.RoundIdempotent | utils/inference_runner/common/image_decode_bmp.cpp:101-102 | Rounding a double leaves it as it is. |
| IndexRounding.IndexAdmissible | utils/inference_runner/common/image_decode_bmp.cpp:101-152 | For size products up to 2^48 the sampled index is the floor (one channel) or the nearest (three) of i * source / destination, where a tie may go either way, unless the ratio is whole: then it goes up. |
| ResizeIndex.OnlyTiesDiffer | utils/inference_runner/common/image_decode_bmp.cpp:124-152 | Which leaves at most two neighbouring indices, and two only at an exact tie with a ratio that is not whole. |
| ResizeIndex.ColourTieGoesDown | utils/inference_runner/common/image_decode_bmp.cpp:151-152 | Such a tie does go down: position 9 from 7 to 18 samples 3, not 4. |
| ResizeIndex.IndexMonotone | utils/inference_runner/common/image_decode_bmp.cpp:124-152 | For any sizes, the index map never goes backwards. |
| ResizeIndex.Injective | utils/inference_runner/common/image_decode_bmp.cpp:124-152 | When a side does not grow, different destination rows sample different source rows. |
| ResizeIndex.IndexOnto | utils/inference_runner/common/image_decode_bmp.cpp:124-152 | When a side does not shrink, every source row is sampled. |
| ResizeIndex.UnfilledSuffix | utils/inference_runner/common/image_decode_bmp.cpp:151-153 | A row of a three-channel result is left at zero exactly when it is among the last floor(destination / (2 * source)) rows. |
| ResizeIndex.FloorInRange | utils/inference_runner/common/image_decode_bmp.cpp:124-126 | One-channel indices never leave the source. |
| ResizeIndex.RoundAxisInverts | utils/inference_runner/common/image_decode_bmp.cpp:151-153 | Every rounded index comes back to itself, through an in-range position, if and only if the side does not shrink. |
| ResizeIndex.FloorAxisInverts | utils/inference_runner/common/image_decode_bmp.cpp:124-126 | Every floored index comes back to itself if and only if the side grew by a whole factor f and i / (1 / f), in doubles, is at least i * f for every i. |
| ResizeLaws.Coverage | utils/inference_runner/common/image_decode_bmp.cpp:118-162 | Which destination pixels hold a source pixel, at admissible indices, and that exactly the last rows and columns of a three-channel result stay zero. |
| ResizeLaws.ColourLosslessIff | utils/inference_runner/common/image_decode_bmp.cpp:133-162 | Resizing to another size and back is the identity on all three-channel images if and only if neither side shrank. |
| ResizeLaws.GreyLosslessIff | utils/inference_runner/common/image_decode_bmp.cpp:108-132 | The same for one channel if and only if both sides grew by whole factors whose quotients do not fall short. |
| ResizeLaws.GreyWholeFactorsBack | utils/inference_runner/common/image_decode_bmp.cpp:108-132 | For any whole factors, a grey pixel comes back as itself or, along each side whose quotient falls short, as its neighbour before it. |
| ResizeLaws.GreyPowersOfTwoLossless | utils/inference_runner/common/image_decode_bmp.cpp:108-132 | Powers of two never fall short. |
| ResizeLaws.GreyLossAt93 | utils/inference_runner/common/image_decode_bmp.cpp:108-132 | Enlarged 93 times and back, column 1 of any grey picture at least two wide shows column 0. |
| ResizeLaws.GreyFactorsCompose | utils/inference_runner/common/image_decode_bmp.cpp:108-132 | Two one-channel enlargements by whole factors equal one enlargement by the products. |
| BmpDecode.ImageDecode | utils/inference_runner/common/image_decode_bmp.cpp:32-95 | Result code, scratch buffer and destination for every header: -1 exactly for more than 1920 * 1080 * 3 bytes or pixels of neither one nor three, the failed assertion for any other channel count than the tensor's, or the resized decoded image; the rest of both buffers is unchanged. |
| BmpDecode.FillScratch | utils/inference_runner/common/image_decode_bmp.cpp:55-89 | The pixel loops fill exactly the image's bytes of the scratch buffer with the decoded image, or reject the depth before any write. |
| BmpDecode.DecodedAt | utils/inference_runner/common/image_decode_bmp.cpp:61-84 | Channel k of pixel (i, j) is the byte stored in row height - 1 - i, column j, colours in reverse order. |
| BmpDecode.RowSizeIsPaddedWidth | utils/inference_runner/common/image_decode_bmp.cpp:42-44 | The row size is the row's byte count rounded up to a multiple of four. |
| BmpDecode.TopDownIsBlank | utils/inference_runner/common/image_decode_bmp.cpp:46-71 | A negative height decodes nothing, succeeds, and yields an all-zero result of any size. |
| BmpEncode.DecodeInvertsEncode | utils/inference_runner/common/image_decode_bmp.cpp:35-89 | Decoding the encoding of any one- or three-channel image gives it back, for any header size, header contents and padding bytes. |
| BmpEncode.HeaderReadsBack | utils/inference_runner/common/image_decode_bmp.cpp:35-40 | Offset, width and height are read back; the depth is if and only if the low half of the compression field is zero. |
| BmpEncode.EncodingAcceptedIff | utils/inference_runner/common/image_decode_bmp.cpp:39-87 | An encoded image is accepted if and only if that half is zero. |
| Tensor.ConvertInputData | utils/inference_runner/common/pre_post_processing.h:37-60 | In place: uint8 data unchanged; each int8 value is the former byte minus 127, or -128 where that was 255; other types refused with -1; bytes past the size untouched. |
| Tensor.RebiasOrder | utils/inference_runner/common/pre_post_processing.h:45-49 | Different pixels stay different, and order survives if and only if the brighter one is not 255. |
| Tensor.RebiasValue | utils/inference_runner/common/pre_post_processing.h:45-49 | The int8 value is the pixel minus 127, except that 255 becomes -128. |
| Tensor.LoadPixels | utils/inference_runner/common/pre_post_processing.h:76-83 | The tensor after reading and decoding, for a file of any length that fits the local buffer; what follows it there is whatever the stack held. |
| Tensor.StackDoesNotMatter | utils/inference_runner/common/pre_post_processing.h:76-83 | For a file that holds its own header and pixels, neither tensor nor return value depends on that. |
| Tensor.GetInputFromFile | utils/inference_runner/common/pre_post_processing.h:63-85 | Return value and whole tensor on every path: -1 for a missing file, a failed read or an unknown type; the failed assertion for any other channel count; 0 otherwise, even if the decoder refused the image for its size or depth. |
| Tensor.TensorShowsImage | utils/inference_runner/common/pre_post_processing.h:63-85 | End to end: each tensor element comes from the encoded image's pixel at admissible indices, or from a zero past the border, whatever the header, padding, stack and former tensor: a uint8 element is that byte, an int8 element 127 below it, or -128 for 255. |
| Tensor.SameSizeTensor | utils/inference_runner/common/pre_post_processing.h:63-85 | A tensor of the image's own size holds the image, re-biased. |
| MinHeap.PriorityQueue.constructor | utils/inference_runner/common/pre_post_processing.h:117-118 | The queue starts empty. |
| MinHeap.PriorityQueue.Push | utils/inference_runner/common/pre_post_processing.h:127 | Heap order is kept and the contents gain exactly the new entry. |
| MinHeap.PriorityQueue.Pop | utils/inference_runner/common/pre_post_processing.h:131 | Heap order is kept and the contents lose exactly the root. |
| MinHeap.PriorityQueue.Top | utils/inference_runner/common/pre_post_processing.h:137 | The root is a least entry, by score and then index. |
| MinHeap.RiseStep | utils/inference_runner/common/pre_post_processing.h:127 | Swapping a too small entry with its parent moves the only disorder to the parent. |
| MinHeap.SinkOrStop | utils/inference_runner/common/pre_post_processing.h:131 | Swapping a too large entry with its smaller child moves the only disorder down, and otherwise there is none. |
| TopN.Offer | utils/inference_runner/common/pre_post_processing.h:127-132 | Kept and evicted entries partition the candidates, at most four kept, every evicted one at or below every kept one. |
| TopN.Drain | utils/inference_runner/common/pre_post_processing.h:135-141 | Emptying the queue and reversing gives its contents in descending order. |
| TopN.GetTopN | utils/inference_runner/common/pre_post_processing.h:114-143 | The result is the first four (or fewer) of the candidates in a reference descending sort; every row has an empty box, an index below the count, and a score that times the scale is that element's output plus the zero point. |
| TopN.CandidateIff | utils/inference_runner/common/pre_post_processing.h:120-124 | With a positive scale, the candidates are exactly the elements whose output plus zero point reaches threshold times scale, each with that sum divided by the scale. |
| TopN.KeptIsPrefix | utils/inference_runner/common/pre_post_processing.h:120-133 | Entries kept over all evicted ones, in descending order, are the head of the full sort. |
| TopN.ReportedIff | utils/inference_runner/common/pre_post_processing.h:120-141 | With a positive scale, an element is reported if and only if its output plus zero point reaches threshold times scale and fewer than four that do have a greater output, or an equal one at a higher index; its row comes after theirs. |
| TopN.ScoreKeepsOrder | utils/inference_runner/common/pre_post_processing.h:121 | With a positive scale, scores rank as the raw outputs do. |
| TopN.SignedOutputsAgree | utils/inference_runner/inference_runner.cpp:343-348 | int8 outputs with zero point 128 give the candidates of the uint8 outputs 128 above them. |
| DevMem.DevMem.constructor | utils/ethosu_logd/dev_mem.cpp:52-66 | The mapping starts on a page boundary and the window shows exactly the requested physical addresses. |
| DevMem.DevMem.Read | utils/ethosu_logd/dev_mem.cpp:72-81 | Copies the requested bytes of the window, or throws, copying nothing, exactly when they do not fit. |
| DevMem.DevMem.Write | utils/ethosu_logd/dev_mem.cpp:83-92 | Changes exactly the requested bytes of physical memory, or throws, changing nothing. |
| DevMem.PatchedReadsBack | utils/ethosu_logd/dev_mem.cpp:72-92 | What is written is read back, and reads of other ranges are unaffected. |
| DevMem.Log.Clear | utils/ethosu_logd/dev_mem.cpp:100-106 | Changes at most the four bytes of the read counter. |
| DevMem.ClearedHeader | utils/ethosu_logd/dev_mem.cpp:100-106 | After clear the read counter equals the write counter; size, write counter and ring are as before, and a print outputs nothing. |
| DevMem.Log.Print | utils/ethosu_logd/dev_mem.cpp:108-131 | Output and exception for every content of the window, including a ring larger than the window, whose first bytes are printed before the throw. |
| DevMem.PrintReadsHeaderAndRing | utils/ethosu_logd/dev_mem.cpp:108-131 | For an allowed size, print depends only on the header and the ring it announces. |
| DevMem.ClearFirstPrintsNothing | utils/ethosu_logd/main.cpp:275-279 | A -C run outputs nothing. |
| DevMem.ReadAndClearLeavesNothing | utils/ethosu_logd/main.cpp:279-283 | After a -c run that did not throw, and without appends, the next run outputs nothing and does not throw. |
| DevMem.StructReadsBack | utils/ethosu_logd/dev_mem.cpp:108-110 | Size, read and write counter are read where an independent writer of the shared structure puts them, whatever the padding and the ring. |
| DevMem.PrintThrowsIff | utils/ethosu_logd/dev_mem.cpp:108-131 | Print throws if and only if there is no whole header, the size is outside 1024 to 1048576, or a byte to print lies outside the window. |
| DevMem.ExplicitAddressAlwaysFails | utils/ethosu_logd/main.cpp:245-273 | A run that prints anything or succeeds had no explicit address. |
| DevMem.RunThrowsIff | utils/ethosu_logd/main.cpp:273-291 | A run throws if and only if there is no whole header or its print throws, which after -C takes a forbidden size; what -C did stays. |
| LogRing.RunKeepsInv | utils/ethosu_logd/dev_mem.cpp:100-131 | Over every interleaving of appends, prints and clears the ring holds the end of the stream and every printed byte is the newest its slot had held. |
| LogRing.EmissionIsItsByteIff | utils/ethosu_logd/dev_mem.cpp:120-129 | A printed byte is the one appended at its position if and only if the producer was at most one ring ahead when it was read. |
| LogRing.UnovertakenPrint | utils/ethosu_logd/dev_mem.cpp:108-131 | A print, with appends between any two of its steps, outputs exactly the last min(write - read, size) bytes of the stream as it was when it began, in order, unless the producer gets more than a ring ahead of the first of them. |
| LogRing.QuietPrint | utils/ethosu_logd/dev_mem.cpp:108-131 | Undisturbed, it takes exactly that many byte steps and changes nothing but the output. |
| LogRing.PrintShowsTail | utils/ethosu_logd/dev_mem.cpp:108-131 | Undisturbed, print on the bytes outputs exactly the last min(write - read, size) bytes of the whole stream and does not throw. |
| LogRing.RunOnRing | utils/ethosu_logd/main.cpp:273-287 | A run without -C outputs exactly those bytes, one with -C nothing, and neither throws; read is then at write if and only if an option was given, and without one no byte changes. |
| LogRing.QuietRunRefines | utils/ethosu_logd/main.cpp:273-287 | Undisturbed, the protocol's run and the program's run on the bytes have the same output and leave the same ring. |
| LogRing.ClearRefines | utils/ethosu_logd/dev_mem.cpp:100-106 | Clear on the bytes is the protocol's clear. |
| LogRing.ReadAndClearPartition | utils/ethosu_logd/main.cpp:273-283 | Successive -c runs print strictly increasing positions; a position behind the read counter was not printed if and only if it was skipped, more than a ring having followed it when a print began, or dropped, having been appended after a print began and before the clear did. |
| Dts.Assemble | utils/ethosu_logd/main.cpp:204-217 | The byte loop copies, or reverses, the bytes. |
| Dts.ToCpu | utils/ethosu_logd/main.cpp:199-220 | The value a host sees in those bytes. |
| Dts.ToCpuReadsBigEndianIff | utils/ethosu_logd/main.cpp:199-220 | All integers of a width are read as big-endian if and only if the host is little-endian or the width is at most one byte. |
| Dts.DTS.GetString | utils/ethosu_logd/main.cpp:169-180 | The loop ends and returns the NUL-terminated strings of the property. |
| Dts.StringsOfJoin | utils/ethosu_logd/main.cpp:169-180 | Splitting inverts joining, empty names included, and drops exactly an unterminated tail. |
| Dts.JoinOfStrings | utils/ethosu_logd/main.cpp:169-180 | Any property is the join of the names read from it and that tail. |
| Dts.DTS.GetInt | utils/ethosu_logd/main.cpp:182-197 | The integer at an offset, for sizes 1, 2, 4 and 8, big-endian on a little-endian host and little-endian on a big-endian one; other sizes throw. |
| Dts.DTS.GetRegByName | utils/ethosu_logd/main.cpp:117-129 | The entry at the index of the first equal name, or the exception. |
| Dts.LookupFindsFirst | utils/ethosu_logd/main.cpp:117-138 | On a little-endian host, in a node that holds a list of entries with one or two cells per field, a lookup returns the first entry of that name and fails if and only if there is none. |
| Dts.LookupRightIff | utils/ethosu_logd/main.cpp:117-159 | That holds for every such node if and only if the host is little-endian. |
| DriverLibrary.Library.Reap | driver_library/src/ethosu.cpp:269-282 | Dropping a count destroys the object exactly at zero, destructor body first, then members; whatever has another owner, and everything outside the object's closure, is untouched. |
| DriverLibrary.Library.OpenDevice | driver_library/src/ethosu.cpp:217-220 | It throws if and only if a call failed; a throw leaves everything as before; success adds one object with one fresh descriptor. |
| DriverLibrary.Library.NewBuffer | driver_library/src/ethosu.cpp:249-267 | It throws if and only if a call failed; a throw at either call leaves descriptors, mappings and objects as before; success adds one of each. |
| DriverLibrary.Library.NewNetwork | driver_library/src/ethosu.cpp:323-357 | The same, with a share of the model buffer, given back on a throw; success issued exactly one network request, on the device's descriptor, with that buffer's. |
| DriverLibrary.Library.NewInferenceOver | driver_library/include/ethosu.hpp:261-275 | The same for the constructor that shares its arena; it throws if and only if a call failed or there are more than four counters; success issued exactly one request, on the network's descriptor, with the arena as its only buffer. |
| DriverLibrary.Library.NewInference | driver_library/include/ethosu.hpp:236-259 | The same for the constructor that makes its own arena; it also throws for more than sixteen inputs or outputs, and only sixteen inputs can overrun; the request lists the arena and the inputs, then the outputs. |
| DriverLibrary.Library.FillRequest | driver_library/src/ethosu.cpp:519-528 | For at most fifteen inputs, the request lists the arena's descriptor, then the inputs' in order, and the outputs', all open, inside the sixteen-slot arrays. |
| DriverLibrary.Library.Create | driver_library/src/ethosu.cpp:504-539 | A throw changes nothing and happens exactly for more than sixteen inputs or outputs or a failed call; the request array is overrun if and only if there are exactly sixteen inputs and no more outputs; success opens one fresh descriptor and issued exactly one request, on the network's descriptor: the arena's descriptor and the inputs' in order, and the outputs' in order. |
| DriverLibrary.Library.Drop | driver_library/src/ethosu.cpp:390-393 | Letting go of the last pointer destroys the object, of any other changes one count. |
| DriverLibrary.Library.CloseDevice | driver_library/src/ethosu.cpp:222-225 | Destroys the device and nothing else, in any state; open networks all keep a device if and only if none refers to this one. |
| Ownership.OpenNeedsOpen | driver_library/include/ethosu.hpp:299-303 | Whatever an object points to is open, in every state, also while it is built or destroyed. |
| Ownership.ExactAccounting | driver_library/src/ethosu.cpp:249-282 | Between calls open descriptors are exactly the disjoint union of one per object, mappings one per buffer. |
| Ownership.NothingLeaks | driver_library/src/ethosu.cpp:222-282 | Once no client holds anything, no object, descriptor or mapping is left. |
| Ownership.CloseFdKeeps | driver_library/src/ethosu.cpp:279-279 | Closing an unowned object's descriptor keeps the invariant. |
| Ownership.ReleasedDevicesOpen | driver_library/src/ethosu.cpp:390-393 | Releasing shared objects, whatever goes with them, leaves every open network its device. |
| Ownership.ClosedDevicesOpenIff | driver_library/include/ethosu.hpp:201-201 | Destroying a device does so if and only if no other open object refers to it. |
| Ownership.DropRefKeeps | driver_library/include/ethosu.hpp:299-303 | Destroying a shared-pointer member keeps counts and pointers in step. |
| Sessions.Session.Step | driver_library/include/ethosu.hpp:131-316 | One statement of any client keeps variables, use counts, descriptors and mappings in step. A constructor makes an object of its kind over the named ones, or throws, changing nothing, for a failed call or an excessive argument; the end of a variable destroys exactly what it owned last. Open networks keep their devices unless a device goes that one refers to. |
| Sessions.Session.Run | driver_library/src/ethosu.cpp:217-539 | A program executes its statements in turn, each doing just that, with any call failing. |
| Sessions.Session.Finish | driver_library/src/ethosu.cpp:222-282 | When its variables end, in any order, no object, descriptor or mapping is left. |
| Sessions.Program | driver_library/src/ethosu.cpp:217-539 | From an empty library, a whole program does so and in the end leaves no object, descriptor or mapping behind. |
| Sessions.DeviceFirst | driver_library/src/ethosu.cpp:222-225 | A program after which, unless a call failed, an open network has no device, while everything else holds. |
| Interpreters.Construct | driver_library/src/ethosu.cpp:639-676 | It throws if and only if a call failed, the model file does not open or is no Vela model; then library and kernel are as before; success adds exactly the interpreter's parts. |
| Interpreters.TearDown | driver_library/include/ethosu.hpp:356-361 | Destroying the members, last declared first, removes them all and touches nothing else. |
| Interpreters.Interpreter.Invoke | driver_library/src/ethosu.cpp:687-695 | It throws if and only if a call failed or the status is not OK. A failed creation changes nothing; otherwise the new inference has replaced the old one, which is destroyed, upon one request for the arena on the network. |
| Interpreters.Interpreter.Destroy | driver_library/include/ethosu.hpp:356-366 | All parts go, nothing else changes, and the device goes after everything that refers to it. |
| Interpreters.OnlyInference | driver_library/src/ethosu.cpp:687-689 | Between calls at most one inference uses the network. |
| Interpreters.ChainOpen | driver_library/include/ethosu.hpp:356-361 | An interpreter's inference, network, arena, model buffer and device descriptors are open. |
| Interpreters.Life | driver_library/src/ethosu.cpp:639-695 | Construction, an invocation for each given status, and destruction, with any call failing, leave library and kernel exactly as found; if none failed, there was one request for each invocation and exactly the bad statuses threw. |
| SharedLibraries.Undisturbed | driver_library/include/ethosu.hpp:356-361 | What happens apart from an interpreter's parts, and does not refer to its device, leaves it as it is. |
| SharedLibraries.OneInvoked | driver_library/src/ethosu.cpp:687-695 | An invocation of one of two interpreters leaves both valid and the only change. |
| SharedLibraries.TwoLives | driver_library/src/ethosu.cpp:639-695 | Two interpreters on one library, invoked in any order and destroyed in either, with any call failing, leave library and kernel exactly as found; if none failed, there was one request for each invocation. |

## Left out

- IndexRounding.IndexAdmissible: stated for source * destination up to 2^48 per side, which both sides below 2^24 guarantee; beyond that three roundings may exceed the distance to the next index. The laws that name pixels inherit the bound, `ImageResize` does not.
- Doubles.RoundIsNear: exponents are unbounded, since no quotient of two `int` values comes near the limits of a double; the infinity of a division by a zero size is modelled. Arithmetic is assumed to be in binary64, without excess precision.
- TopN.GetTopN: scores are exact rationals, so float rounding and NaN are not modelled; `std::priority_queue` is modelled as the usual binary heap over its vector.
- Tensor.ConvertInputData: the float branch reads floats where bytes were decoded, so no statement about its values is made.
- Tensor.GetInputFromFile: a file longer than the local buffer overruns it in C++ and is excluded by a precondition, as is a header, found in the file or past its end, that overflows or announces pixels outside the buffer.
- BmpDecode.ImageDecode: headers whose `int` products overflow, or whose pixels lie outside the file, are undefined in C++ and excluded by a precondition.
- DevMem.DevMem.constructor: the page mask is written as a remainder by the page size; failing to open or map is not modelled.
- LogRing.RunKeepsInv: reading the header and reading one byte are single steps, counters stay below 2^32, and the producer, which is firmware outside the repository, is assumed to put byte n in slot n modulo the size, as print expects.
- Dts.DTS.GetInt: a read past the end of a property, undefined in C++, is the separate error OutOfBounds.
- DriverLibrary.Library.Reap: closing and unmapping succeed, since a destructor that throws while unwinding ends the process; elements of one vector are released last to first. Objects are entries of one table with identities instead of heap addresses.
- DriverLibrary.Library.NewInference: what follows an overrun, which C++ leaves undefined, is not modelled.
- Sessions.Session.Step: statements without meaning in C++ are excluded, such as an inference with its own arena on a network whose device is gone, or with sixteen inputs.
- The shapes, sizes and types that `collectNetworkInfo` copies do not matter to ownership: it is one call that may fail. The counter settings in the request of `Inference::create`, the index in that of a built-in network and the size in that of a buffer are left out too.
- Files, standard output, argument parsing, the directory search in `Path`, and `exit` paths are input and output only.
- The kernel driver and the message queues: their code is not part of this model.
- `Inference::wait`, `cancel` and `status` results, apart from throwing: their meaning lies in the kernel.
- `SemanticVersion`, capabilities, getters, `getBoundingBoxes`, labels, the stub and the Python binding would add only easy members.
