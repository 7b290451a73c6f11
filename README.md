# VulkanLearning, the computing core in Dafny

VulkanLearning holds two small Vulkan programs. The headless example (`template.cpp`) builds a
fractal triangle mesh, renders it off-screen and saves the framebuffer as a binary PPM file. The
texture example (`texture.cpp`) uploads a picture into a sampled image. Most of either program is
a sequence of driver calls. This project models the parts that compute something:

- **Mesh** (`mesh.dfy`): `buildVertex`, the recursive midpoint subdivision that keeps the three
  corner triangles and drops the centre one, and `setVertex`, which runs it on four seed
  triangles. The specification function `Subdivide` gives the vertices one call appends. The
  lemmas prove its size, its pre-order leaf order, that colours are carried along and never
  interpolated, and that every appended position stays inside the seed triangle.
- **MemoryType** (`memory_type.dfy`): `getMemoryTypeIndex`, the bit-mask-driven search for a
  memory type. It returns the least suitable index, and 0 when there is none. It is proved
  against `MemoryTypeIndex`, and `ZeroIsAmbiguous` shows that 0 does not tell the two cases
  apart.
- **Selection** (`selection.dfy`): the first queue family with the graphics bit, and the
  validation-layer availability check.
- **Ppm** (`ppm.dfy`): the image saver.
  - The header `P6\n<width>\n<height>\n255\n` is proved to read back through `ParseHeader`, the inverse of the header writer.
  - The pixel loops are proved to write, for pixel `(x, y)` and colour byte `c`, the mapped byte
    at `offset + y * rowPitch + 4 * x + c`, or at `+ 2 - c` when the format is BGR.
  - The pixel data is proved to be three bytes per pixel.
- **Texture** (`texture.dfy`): the image-layout transition table of `transitionImageLayout`, and
  an `Application` class with these methods:
  - `GetMemoryTypeIndex`;
  - `SetDevice`, the queue-family search;
  - `TransitionImageLayout`, which records a barrier or fails;
  - `CopyBufferToImage`;
  - `SetTexture`.

  The recorded commands are checked against the layouts they claim with `Replay`. The upload is
  proved to use only supported transitions, to copy while the image is in
  `TRANSFER_DST_OPTIMAL`, and to leave the image in `SHADER_READ_ONLY_OPTIMAL`.

The driver is replaced by parameters. These are the memory types and queue families it reports,
the installed layers, and the mapped memory with its offset and row pitch. `Common` holds
`Option` and `Byte`.

## Model

| member | source | states |
|---|---|---|
| Mesh.Mid | VulkanTest/src/template/template.cpp:754-756 | the new position is equally far from both edge ends in every coordinate (the edge midpoint) |
| Mesh.OppositeMidpoint | VulkanTest/src/template/template.cpp:754-756 | `nposition[j]` is equally far, in each coordinate, from the two corners other than `j`: the midpoint of the edge opposite `j` |
| Mesh.Corner | VulkanTest/src/template/template.cpp:758-770 | a corner triangle has as many elements as its parent and keeps the parent's vertex `i` unchanged |
| Mesh.MidSymmetric | VulkanTest/src/template/template.cpp:754-756 | the midpoint of an edge does not depend on the order of its ends |
| Mesh.CornerShape | VulkanTest/src/template/template.cpp:758-770 | corner `i` keeps vertex `i`, its two other vertices are the midpoints of the edges at `i`, and colours and extra elements are unchanged |
| Mesh.PlaceCorner | VulkanTest/src/template/template.cpp:758-770 | whatever an earlier pass left in `ninput`, the nine assignments of pass `i` produce corner `i` |
| Mesh.OppositeMidpoints | VulkanTest/src/template/template.cpp:751-757 | `nposition[j]` is the midpoint of the edge opposite corner `j` |
| Mesh.PushTriangle | VulkanTest/src/template/template.cpp:741-747 | at the target depth the first three input vertices are appended in order |
| Mesh.CutCorner | VulkanTest/src/template/template.cpp:758-770 | one pass of the second loop leaves exactly corner `i` in `ninput` |
| Mesh.BuildVertex | VulkanTest/src/template/template.cpp:736-774 | the vector afterwards is the old vector followed by `Subdivide(input, target - cur)`: nothing past the target, the triangle at it, and the leaves of corners 0, 1, 2 in that order below it |
| Mesh.Subdivide | VulkanTest/src/template/template.cpp:736-774 | a call `d` levels above the target appends `3 * 3^d` vertices, and none when it starts past the target |
| Mesh.CornerLeaves | VulkanTest/src/template/template.cpp:758-772 | the corners visited so far contribute `3 * 3^(d-1)` vertices each |
| Mesh.SubdivideSplit | VulkanTest/src/template/template.cpp:758-772 | below the target the output is corner 0's output, then corner 1's, then corner 2's |
| Mesh.SubdivideIndex | VulkanTest/src/template/template.cpp:758-772 | output offset `k` falls in the block of corner `k / (3 * 3^(d-1))` at the offset within that block |
| Mesh.CornerLeavesStep | VulkanTest/src/template/template.cpp:758-772 | the recursive call of pass `i` appends corner `i`'s leaves after those of the earlier corners |
| Mesh.SubdivideKeepsColors | VulkanTest/src/template/template.cpp:736-774 | output vertex `k` has the colour of input vertex `k mod 3` |
| Mesh.CornerKeepsColors | VulkanTest/src/template/template.cpp:758-772 | the leaves of a corner keep the colour pattern of the triangle it was cut from |
| Mesh.SubdivideIsPreorder | VulkanTest/src/template/template.cpp:758-772 | triangle `j` of the output is leaf `j`, the leaf whose base-3 digits of `j` pick the corner at each level |
| Mesh.PreorderStep | VulkanTest/src/template/template.cpp:758-772 | leaf `jc` of corner `c` is leaf `c * 3^(d-1) + jc` of the triangle |
| Mesh.BlockOffset | VulkanTest/src/template/template.cpp:758-772 | the output of corner `c` starts at triangle `c * 3^(d-1)` of the whole output |
| Mesh.LeafStep | VulkanTest/src/template/template.cpp:758-772 | the leaf numbering of a corner is the triangle's numbering shifted by the corner's block |
| Mesh.CornerIsNotCentre | VulkanTest/src/template/template.cpp:758-770 | no corner is the dropped centre triangle unless the corner vertex already lies at its opposite midpoint |
| Mesh.CornersInHull | VulkanTest/src/template/template.cpp:736-774 | every vertex of a triangle is a convex combination of its corners |
| Mesh.MidInHull | VulkanTest/src/template/template.cpp:754-756 | the midpoint of two points in a triangle is in the triangle |
| Mesh.CornerInHull | VulkanTest/src/template/template.cpp:758-770 | a corner of a triangle inside a hull is inside the hull |
| Mesh.SubdivideStaysInHull | VulkanTest/src/template/template.cpp:736-774 | every position appended from a triangle inside a hull is inside the hull |
| Mesh.SubdivideInsideSeed | VulkanTest/src/template/template.cpp:736-774 | every position appended by a call lies in the triangle it started from |
| Mesh.BuildSeeds | VulkanTest/src/template/template.cpp:203-235 | four seeds give their four subdivisions in order, `12 * 3^target` vertices, the buffer size is 24 bytes per vertex, and the draw count is the whole list |
| Mesh.SetVertex | VulkanTest/src/template/template.cpp:200-235 | the four seeds at depth 4 append 972 vertices, the vertex buffer size matches, and the count the draw call at line 584 passes is every vertex of the list |
| Mesh.DepthOneExample | VulkanTest/src/template/template.cpp:206-211 | one level on the red seed gives nine red vertices, the first triangle being (1,0,0), (0.5,0,0.5), (0.5,0.5,0) |
| Mesh.FirstLeaf | VulkanTest/src/template/template.cpp:758-771 | the first three vertices of a one-level subdivision are corner 0 |
| MemoryType.FirstSuitable | VulkanTest/src/template/template.cpp:27-36 | the first suitable memory type at or after `from`: suitable, and no earlier one is; `None` only when none is |
| MemoryType.MemoryTypeIndex | VulkanTest/src/template/template.cpp:23-39 | the least index whose `typeBits` bit is set and whose flags contain the requested properties; 0 when there is none |
| MemoryType.GetMemoryTypeIndex | VulkanTest/src/template/template.cpp:23-39 | the shifting loop returns `MemoryTypeIndex` |
| MemoryType.SearchStep | VulkanTest/src/template/template.cpp:29-36 | the lowest bit of the shifted mask and the flags of type `i` decide between stopping at `i` and moving on |
| MemoryType.ShiftedStep | VulkanTest/src/template/template.cpp:36 | each `typeBits >>= 1` brings the bit of the next memory type to position 0 |
| MemoryType.ZeroIsAmbiguous | VulkanTest/src/template/template.cpp:38 | 0 comes back exactly when memory type 0 is suitable or no memory type is |
| Selection.FirstGraphicsFrom | VulkanTest/src/template/template.cpp:170-181 | the first family at or after `from` with the graphics bit, or `None` when no later family has it |
| Selection.FirstGraphicsFamily | VulkanTest/src/template/template.cpp:170-181 | the least family index with the graphics bit; `None` exactly when no family has it |
| Selection.FindGraphicsQueueFamily | VulkanTest/src/template/template.cpp:170-181 | the loop stops at `FirstGraphicsFamily` and leaves the index unset when there is none |
| Selection.LayersAvailable | VulkanTest/src/template/template.cpp:106-123 | true exactly when every requested layer is among the installed ones |
| Selection.ValidationLayersAvailable | VulkanTest/src/template/template.cpp:97-123 | on the example's own one-entry list, the check is true exactly when the standard validation layer is installed |
| Ppm.Digits | VulkanTest/src/template/template.cpp:697-698 | a number prints as at least one decimal digit and nothing else, without leading zeros (a single digit, or a first digit other than 0) |
| Ppm.DecimalText | VulkanTest/src/template/template.cpp:697-698 | a negative number prints as a minus sign followed by digits only, any other as digits only; never empty |
| Ppm.Header | VulkanTest/src/template/template.cpp:696-699 | the header starts with `P6\n`, ends with `255\n`, the width is followed by a newline, and it is 9 bytes longer than the two numbers' text |
| Ppm.DigitsValueOfDigits | VulkanTest/src/template/template.cpp:697-698 | the digits printed for `n` denote `n` |
| Ppm.NatLineRoundTrip | VulkanTest/src/template/template.cpp:697-698 | a non-negative number and its newline read back as that number, with the rest of the file untouched |
| Ppm.IntLineRoundTrip | VulkanTest/src/template/template.cpp:697-698 | an `int32_t` as `operator<<` prints it, negative ones included, reads back as the same number |
| Ppm.DimensionsRoundTrip | VulkanTest/src/template/template.cpp:697-699 | the width, height and sample-depth lines read back as the width and height |
| Ppm.HeaderRoundTrip | VulkanTest/src/template/template.cpp:696-699 | the header reads back as the saved width and height, and the bytes after it are exactly the pixel data |
| Ppm.SourceChannel | VulkanTest/src/template/template.cpp:712-721 | file byte `c` of a pixel is read from one of the three colour bytes, never from the alpha byte |
| Ppm.ChannelsDistinct | VulkanTest/src/template/template.cpp:712-721 | with or without swizzling, distinct file bytes of a pixel come from distinct colour bytes, so each colour byte is written exactly once |
| Ppm.PixelBytes | VulkanTest/src/template/template.cpp:712-721 | three bytes per pixel, byte `c` being the pixel's `SourceChannel(c)` byte |
| Ppm.RowBytes | VulkanTest/src/template/template.cpp:709-723 | a row of `width` pixels is `3 * width` bytes |
| Ppm.RowInside | VulkanTest/src/template/template.cpp:707-725 | if the last row fits in the mapped memory, every row does |
| Ppm.Rows | VulkanTest/src/template/template.cpp:707-725 | one row of `3 * width` bytes for each of the `height` rows |
| Ppm.ImageSize | VulkanTest/src/template/template.cpp:707-725 | the pixel data is `3 * width * height` bytes |
| Ppm.RowAt | VulkanTest/src/template/template.cpp:709-723 | byte `3x + c` of a row is byte `4x + SourceChannel(c)` of the mapped row |
| Ppm.PixelAt | VulkanTest/src/template/template.cpp:707-725 | byte `3 * (y * width + x) + c` of the pixel data is the mapped byte `offset + y * rowPitch + 4x + SourceChannel(c)`, which lies inside the mapping |
| Ppm.FlattenIndex | VulkanTest/src/template/template.cpp:707-725 | byte `k` of row `y` lands `y * 3 * width + k` bytes into the pixel data |
| Ppm.RowSnoc | VulkanTest/src/template/template.cpp:710-723 | one more pass of the inner loop appends the next pixel's bytes |
| Ppm.FlattenSnoc | VulkanTest/src/template/template.cpp:707-725 | one more pass of the outer loop appends the next row |
| Ppm.NextRowStart | VulkanTest/src/template/template.cpp:724 | `imagedata += rowPitch` moves to the start of the next row |
| Ppm.WritePixel | VulkanTest/src/template/template.cpp:712-721 | the three single-byte writes, or the one three-byte write, append `PixelBytes` |
| Ppm.WriteRow | VulkanTest/src/template/template.cpp:709-723 | the inner loop appends the row's bytes; a negative width writes nothing |
| Ppm.WritePixels | VulkanTest/src/template/template.cpp:707-725 | the outer loop appends the whole pixel data, row by row from the subresource offset |
| Ppm.NeedsSwizzle | VulkanTest/src/template/template.cpp:703-704 | the definition of the BGR list of line 703: B8G8R8A8_SRGB (50), B8G8R8A8_UNORM (44) and B8G8R8A8_SNORM (45); `AttachmentIsNotSwizzled` states its consequence for the attachment |
| Ppm.AttachmentIsNotSwizzled | VulkanTest/src/template/template.cpp:703-704 | the RGBA attachment format is not in the BGR list, so pixels are written unswizzled |
| Ppm.SaveImage | VulkanTest/src/template/template.cpp:692-725 | the file is the header followed by the unswizzled pixel data |
| Ppm.SavedFileReadsBack | VulkanTest/src/template/template.cpp:696-725 | `ParseHeader`, the inverse of the header writer, reads the saved file back as the saved width and height followed by exactly three bytes per pixel |
| Texture.LayoutTransition | VulkanTest/src/texture/texture.cpp:212-263 | a barrier exactly for UNDEFINED to TRANSFER_DST_OPTIMAL and TRANSFER_DST_OPTIMAL to SHADER_READ_ONLY_OPTIMAL; it echoes both layouts and covers colour, mip 0, layer 0, one each, with no queue transfer |
| Texture.ToTransferDst | VulkanTest/src/texture/texture.cpp:232-239 | access masks 0 to TRANSFER_WRITE, stages TOP_OF_PIPE to TRANSFER |
| Texture.ToShaderReadOnly | VulkanTest/src/texture/texture.cpp:240-247 | access masks TRANSFER_WRITE to SHADER_READ, stages TRANSFER to FRAGMENT_SHADER |
| Texture.BarriersChain | VulkanTest/src/texture/texture.cpp:232-247 | the second barrier waits on the stage and access the first leads into |
| Texture.ShaderReadOnlyIsFinal | VulkanTest/src/texture/texture.cpp:232-252 | no supported transition leaves SHADER_READ_ONLY_OPTIMAL or skips TRANSFER_DST_OPTIMAL |
| Texture.ReplayAppend | VulkanTest/src/texture/texture.cpp:433-435 | replaying two command lists in turn is replaying their concatenation |
| Texture.Uint32 | VulkanTest/src/texture/texture.cpp:434 | `static_cast<uint32_t>` is below 2^32 and keeps values already in range |
| Texture.TextureUpload | VulkanTest/src/texture/texture.cpp:433-435 | the upload submits three commands |
| Texture.UploadIsConsistent | VulkanTest/src/texture/texture.cpp:433-435 | the first barrier is accepted from any layout, the copy runs in TRANSFER_DST_OPTIMAL over the whole picture, and the image ends in SHADER_READ_ONLY_OPTIMAL |
| Texture.UploadAfter | VulkanTest/src/texture/texture.cpp:433-435 | after any consistent earlier commands, the upload still ends in SHADER_READ_ONLY_OPTIMAL |
| Texture.Application.GetMemoryTypeIndex | VulkanTest/src/texture/texture.cpp:18-34 | the same least-suitable-or-0 index over this device's memory types |
| Texture.Application.SetDevice | VulkanTest/src/texture/texture.cpp:355-366 | the first graphics family becomes `queueFamilyIndex`; with none, the field is unchanged; nothing else changes |
| Texture.Application.TransitionImageLayout | VulkanTest/src/texture/texture.cpp:212-263 | a supported pair appends its barrier; any other pair fails and records nothing |
| Texture.Application.CopyBufferToImage | VulkanTest/src/texture/texture.cpp:193-210 | appends a copy into the image in TRANSFER_DST_OPTIMAL with the given extent |
| Texture.Application.SetTexture | VulkanTest/src/texture/texture.cpp:391-435 | a failed load changes nothing and fails; otherwise the staging size is `w * h * 4` and the commands are the upload |

## Left out

- Vulkan calls that only create, bind, submit or destroy objects are not modelled. Nor are the render pass, pipeline, shaders, uniform matrices (glm) or the debug callback. None of them computes anything the core depends on.
- Loading and decoding the picture (`stbi_load`) and writing through `std::ofstream` are left out. `printf`, `std::cout` and `getchar` are too. Whether the picture loaded is the `loaded` parameter of `SetTexture`; the file is the returned byte sequence.
- Memory types, queue families, installed layers and the mapped framebuffer (with its offset and row pitch) are parameters, because the driver supplies them.
- Positions and colours are reals. The source uses 32-bit floats. Vertex count, order, colours and the shape of each corner triangle do not depend on rounding.
- Mesh.Mid, Mesh.OppositeMidpoint, Mesh.MidInHull, Mesh.SubdivideStaysInHull and Mesh.SubdivideInsideSeed: midpoint equidistance and containment in the seed triangle are proved for exact reals only. With 32-bit floats the rounded sum breaks equidistance: `1.0f + 2^-30` rounds to `1.0f`, so the computed midpoint of 1 and 2^-30 is 0.5, not equally far from both ends. For corners (1,0,0), (2^-30,1,0) and (0,0,1), the rounded midpoint of the first two is (0.5, 0.5, 0), which is not a convex combination of the corners: that needs x = 0.5 + 2^-31.
- Mesh.BuildVertex: a triangle with fewer than three vertices is excluded by the precondition `cur <= target ==> |input| >= 3`. The source reads past the end of the vector in that case (template.cpp lines 745 and 754-762). Every call passes three vertices (lines 206-232 and 750).
- `exit(1)` on an unsupported layout pair or a failed picture load is modelled as a `false` result with nothing recorded. Termination of the whole process is not modelled.
- Texture.Application.SetTexture: `texWidth * texHeight * 4` is unbounded here. In the source it is an `int` product that overflows (undefined behaviour) for pictures above about 2^29 pixels.
- Texture.Application.SetTexture: `createBuffer`, `createImage` and the staging-buffer copy are not recorded as commands. They do not touch the image layout.
- Ppm.SaveImage: the swizzle flag is computed from the attachment format, which is a constant, so the saver always writes unswizzled. `WritePixels` takes the flag as a parameter so that the BGR path is modelled too.
- Ppm.WritePixels and Ppm.WriteRow read the mapped memory as a byte sequence. The `unsigned int *` cast only matters for the four-byte stride, which is modelled.
- The empty stub functions and the `setVertex` of the texture example are not modelled. That code is incomplete: it uses members `Application` does not declare.
- Mesh.DepthOneExample takes the seed triangle as a parameter given element by element, not the `Input1` constant itself.
- `strcmp` on layer names is string equality.
- The memory-type index is a `nat`, and the at most 32 memory types are a precondition (`VK_MAX_MEMORY_TYPES`).
- The texture example's copy of `getMemoryTypeIndex` delegates to the headless example's. The two source functions are identical.
