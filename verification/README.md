# std140 uniform-buffer packing of the deferred-shading demo

This project models the CPU side of the demo's uniform buffers in Dafny: the
`UniforBuffer` packer, the fixed call sequences in `main.cpp` that fill the
materials, lights and matrices buffers, the keyboard callback that cycles the
camera configuration, and the host-side material table of `Materials`.

- The packer's state is the byte sequence `buffer_` and the chunk offset
  `padding_`. Every `Add` overload funnels into `AddToBuffer`. If the field does
  not fit in what is left of the current 16-byte chunk, `AddToBuffer` first
  closes the chunk with zeros (`CheckChunk`/`FinishChunk`), then appends the
  field's bytes. Module `UniformBuffer` models this state machine. Its lemmas
  prove the invariant `0 <= padding_ < 16 && padding_ == |buffer_| mod 16`, that
  the buffer only grows, the exact padding, that no small field straddles a
  chunk, and that `FinishChunk` is idempotent.
- Module `Std140` is an independent reference. It gives offsets, sizes and byte
  images under the standard uniform block layout (section 7.6.2.2 of the OpenGL
  4.5 Core Profile specification), for the member types the demo's blocks use.
  Module `Blocks` applies it to the GLSL blocks declared in the comments of
  `main.cpp`:
  - `Material`: 48 bytes, members at 0/16/32/44.
  - Lights header: 16 bytes.
  - `Light`: 80 bytes, members at 0/16/32/44/48/60/64.
  - `Matrices`: 192 bytes, members at 0/64/128.
- Module `Scene` models the packing sequences of `main.cpp` as methods that
  make the same `Add`/`FinishChunk` calls in the same order. Each method is
  proved to append exactly the std140 image of its record. The 10 x 10 loops
  are proved to produce the std140 image of the whole block, with the record
  of grid cell (i, j) at the std140 position of array element `i * 10 + j`.
  The packer is *not* std140 in general: a `vec3` after a `float` lands at
  offset 4 instead of 16 (`Scene.PackerIsNotStd140InGeneral`). Layout
  equality is claimed only for the concrete sequences.
- Module `Keyboard` models the callback. Only presses act. Q exits, and space
  moves `camera_config` to `(camera_config + 1) % 3`.
- Module `Materials` models `Materials::Add` and `Reload`. `Add` builds one
  record and appends it, so a material's ID is its insertion index. `Reload`
  allocates a handle only once and uploads `sizeof(Material)` bytes per
  record.

Floats are opaque 4-byte words; nothing in the model does floating-point
arithmetic. The one integer packed, the light count, is taken to be stored as
little-endian two's complement (see "## Left out").

`CreateMaterialsBuffer` writes 48 bytes per material, the std140 size of
`struct Material` (main.cpp:139-157).

## Model

| member | source | states |
|---|---|---|
| Bytes.FlattenPlacesWords | UniformBuffer.cpp:56-66 | a vector or matrix is handed over as its floats back to back: byte j of component k sits at 4k + j |
| Bytes.Int32RoundTrip | UniformBuffer.cpp:46-49 | the 4 bytes copied out of an `int` decode back to the same `int` |
| Bytes.Int32WordRoundTrip | UniformBuffer.cpp:46-49 | every 4-byte word is the copy of exactly one `int`, so the encoding loses nothing |
| UniformBuffer.FinishChunkSpec | UniformBuffer.cpp:68-74 | only zeros are appended and the offset ends at 0; it is a no-op when the offset is 0; from a valid state it appends exactly 16 - offset bytes (mod 16) and keeps the invariant |
| UniformBuffer.FinishChunkIdempotent | UniformBuffer.cpp:68-74 | finishing a chunk twice equals finishing it once |
| UniformBuffer.FieldStartSpec | UniformBuffer.cpp:87-94 | from a valid state: fewer than 16 padding bytes precede a field; a field of at most 16 bytes never straddles a chunk; a larger one starts on a chunk boundary; no byte is inserted exactly when the offset is 0 or the field fits |
| UniformBuffer.AddToBufferSpec | UniformBuffer.cpp:92-99 | from a valid state: append-only: the old bytes are a prefix, then zero padding up to the field start, then the field's bytes verbatim; the invariant is kept; adding zero bytes changes nothing |
| UniformBuffer.AddToBufferCases | UniformBuffer.cpp:87-98 | from a valid state, the exact bytes appended: the field alone when it fits or the offset is 0, otherwise 16 - offset zeros and then the field |
| UniformBuffer.Encode | UniformBuffer.cpp:46-66 | each overload hands over its field's size: int/float 4, bool 1, vec3 12, vec4 16, mat4 64, n floats 4n |
| UniformBuffer.AddSpec | UniformBuffer.cpp:46-66 | every overload keeps the invariant and places its field's encoding at the start `CheckChunk` gives |
| UniformBuffer.AddFloatArrayPlacesElements | UniformBuffer.cpp:51-54 | `Add(T*, n)` appends the n elements as one contiguous block, element k at 4k past the field start |
| UniformBuffer.RunPreservesValid | UniformBuffer.cpp:68-99 | any sequence of `Add`/`FinishChunk` calls keeps the invariant and only appends |
| UniformBuffer.RunAppend | UniformBuffer.cpp:68-99 | making two sequences of calls one after the other equals making their concatenation: the packer keeps no state beyond bytes and offset |
| UniformBuffer.ReachableIsValid | UniformBuffer.cpp:32-35 | from the constructor state, whatever the calls, 0 <= offset < 16 and offset == length mod 16 |
| UniformBuffer.Init | UniformBuffer.cpp:42-44 | `Init` gives the buffer a nonzero device name and leaves the CPU side alone |
| UniformBuffer.Clear | UniformBuffer.h:83-86 | `Clear` empties the CPU-side buffer, resets the offset and keeps the handle |
| Std140.OffsetIsAligned | UniformBuffer.h:32-34 | every member sits at a multiple of its base alignment, after the member before it |
| Std140.MembersDoNotOverlap | UniformBuffer.h:32-34 | members are laid out in declaration order without overlap |
| Std140.StructSize | UniformBuffer.h:32-34 | a structure's size is its members' extent rounded up to a multiple of 16 |
| Std140.ImagePlacesMembers | UniformBuffer.h:32-34 | in the std140 image, each member's payload is at that member's offset |
| Std140.ImageGapsAreZero | UniformBuffer.h:32-34 | the alignment gaps of a std140 image are zero |
| Std140.StructImage | UniformBuffer.h:32-34 | a structure's image has the structure's size, holds the members, and its tail padding is zero |
| Std140.StructImagePlacesMembers | UniformBuffer.h:32-34 | in a whole padded structure, each member's payload is at that member's offset |
| Std140.ElementOffset | main.cpp:146-148 | array elements start on 16-byte boundaries, at or after the start of the array |
| Std140.ArrayImagePlacesElements | main.cpp:146-148 | in an array of equal-sized structures, element k occupies bytes k * stride up to (k + 1) * stride |
| Blocks.MaterialLayout | main.cpp:139-148 | `Material` members are at 0, 16, 32 and 44, and a material takes 48 bytes |
| Blocks.LightsHeaderLayout | main.cpp:236-239 | `global_ambient` is at 0, `n_lights` at 12, and `lights[0]` at 16 |
| Blocks.LightLayout | main.cpp:226-234 | `Light` members are at 0, 16, 32, 44, 48, 60 and 64, and a light takes 80 bytes |
| Blocks.MatricesLayout | main.cpp:284-292 | `Matrices` members are at 0, 64 and 128, and an instance takes 192 bytes |
| Blocks.LightImageLength | main.cpp:226-239 | every element of `lights[100]` takes 80 bytes, whatever the light |
| Blocks.MatricesImageLength | main.cpp:284-291 | every element of `matrices[100]` takes 192 bytes, whatever the matrices |
| Blocks.MaterialImageLength | main.cpp:139-148 | every element of `materials[8]` takes 48 bytes, whatever the material |
| Blocks.MaterialImageAfter | main.cpp:139-144 | appended after any bytes, a material's std140 image is diffuse, 4 zeros, ambient, 4 zeros, specular, shininess |
| Blocks.MaterialImageBytes | main.cpp:139-144 | a material's std140 bytes: diffuse, 4 zeros, ambient, 4 zeros, specular, shininess |
| Blocks.LightsHeaderImageAfter | main.cpp:236-238 | the header's std140 bytes are the ambient colour then the count, with no padding |
| Blocks.LightImageFront | main.cpp:226-230 | the first four `Light` members in std140: position, diffuse, 4 zeros, specular, then `is_spot` as a 32-bit word |
| Blocks.LightImageBack | main.cpp:226-233 | after `is_spot`, the std140 image continues with spot direction, cutoff and exponent, with no gap |
| Blocks.LightImageAfter | main.cpp:226-234 | a light's std140 bytes, with `is_spot` as a 32-bit word and 12 bytes of tail padding |
| Blocks.MatricesImageAfter | main.cpp:284-288 | an instance's std140 bytes are the three matrices back to back |
| Scene.MaterialPackingFront | main.cpp:153-154 | diffuse fills 12 bytes; ambient does not fit after it and starts the next chunk |
| Scene.MaterialPackingBack | main.cpp:155-157 | specular starts a new chunk, shininess completes it, and `FinishChunk` adds nothing |
| Scene.LightsHeaderPacking | main.cpp:247-248 | the ambient colour and the count fill exactly one chunk |
| Scene.LightPackingPosition | main.cpp:267-268 | the position `vec4` fills a chunk and the diffuse `vec3` starts the next, leaving the offset at 12 |
| Scene.LightPackingSpecular | main.cpp:269-270 | specular starts a new chunk and the one-byte `is_spot` follows it directly |
| Scene.LightPackingDirection | main.cpp:270-272 | the 3 zeros before `spot_direction` turn the one-byte bool into a std140 32-bit bool |
| Scene.LightPackingExponent | main.cpp:273-274 | the exponent opens a chunk, and `FinishChunk` closes it with 12 zeros |
| Scene.PackMaterial | main.cpp:153-157 | the five calls for a material append exactly the std140 image of `struct Material` |
| Scene.PackLightsHeader | main.cpp:247-249 | the three calls append exactly the std140 bytes before `lights[0]` |
| Scene.PackLight | main.cpp:267-274 | the eight calls for a light append exactly the std140 image of `struct Light` |
| Scene.PackMatrices | main.cpp:307-309 | the three calls for an instance append exactly the std140 image of `struct Matrices` |
| Scene.MatricesPacking | main.cpp:307-308 | the mvp and modelview matrices fill whole chunks, so no padding is inserted |
| Scene.PackerIsNotStd140InGeneral | UniformBuffer.cpp:87-90 | the fits-in-chunk rule differs from std140: after a float, a vec3 goes to offset 4, where std140 says 16 |
| Scene.GridIndexInverse | main.cpp:251-252 | cell (i, j) of the loops and array element i * 10 + j determine each other |
| Scene.ElementIsGridCell | main.cpp:251-252 | every element k below N_LIGHTS is the number of the loops' cell (k / 10, k % 10), which lies inside the grid |
| Scene.GridIndexInRange | main.cpp:49-51 | every cell is an element below N_LIGHTS = 100, within `lights[100]` and `matrices[100]` |
| Scene.InitOrClear | main.cpp:242-245 | the device buffer is created on first use and reused later (decided by `GetId() == 0`); given `Consistent` (a buffer with no device name is still empty), the CPU side starts empty either way |
| Scene.CreateMaterialsBuffer | main.cpp:137-167 | the buffer holds the std140 image of `materials[]` with the bear and ground materials: 96 bytes, within `materials[8]`, the bear material at bytes 0-47 and the ground material at bytes 48-95 |
| Scene.MaterialsBlockPlacesMaterials | main.cpp:146-164 | material k starts at the std140 element offset 48k and its 48 bytes are its std140 image |
| Scene.PackLightGrid | main.cpp:251-276 | the two loops append the lights cell after cell as consecutive std140 array elements |
| Scene.LightElementOffset | main.cpp:236-239 | element k of `lights[100]` starts 16 + 80k bytes into the block |
| Scene.UpdateLightsBuffer | main.cpp:224-279 | the buffer ends up holding the std140 image of `LightsBlock`, whatever it held before, given that a buffer with no device name is still empty (`Consistent`); the device name is created once and then kept |
| Scene.LightsBlockIsStd140 | main.cpp:236-276 | the lights block is 16 + 80 * N_LIGHTS bytes, starts with the ambient colour and the count, and holds cell (i, j)'s light at its std140 element offset |
| Scene.LightMemberInBlock | main.cpp:226-240 | every byte of every member of every light is at the std140 offset of that member in that array element |
| Scene.PackMatricesGrid | main.cpp:299-311 | the two loops append the instances cell after cell as consecutive std140 array elements, with no `FinishChunk` needed |
| Scene.UpdateBearMatrices | main.cpp:282-314 | the buffer ends up holding the std140 image of 100 `Matrices` elements in loop order, whatever it held before, given that a buffer with no device name is still empty (`Consistent`) |
| Scene.BearMatricesBlockIsStd140 | main.cpp:290-292 | the bear buffer is 192 * N_LIGHTS bytes, with cell (i, j)'s matrices at their std140 element offset |
| Scene.UpdateGroundMatrices | main.cpp:317-344 | the ground buffer is one std140 `Matrices` element of 192 bytes, whatever it held before, given that a buffer with no device name is still empty (`Consistent`) |
| Keyboard.HandleKey | main.cpp:466-478 | only presses act; Q exits; space moves to the next configuration and wraps from 2 to 0 |
| Keyboard.SpaceCyclesConfigs | main.cpp:80-81 | starting from configuration 0, n presses of space select configuration n mod 3 |
| Keyboard.ConfigStaysKnown | main.cpp:473-475 | whatever keys are pressed, the configuration stays in [0, 3) |
| Keyboard.ExitIsFinal | main.cpp:470-471 | after Q, no key changes anything |
| Materials.Add | Materials.cpp:38-51 | one record is appended and the earlier ones are unchanged; each argument lands in its own component, in order |
| Materials.AddMaterialKeepsComponents | Materials.cpp:40-51 | taking a material apart into `Add`'s ten arguments and rebuilding it gives the same material |
| Materials.AddAllAppends | Materials.cpp:51 | a sequence of `Add` calls appends the materials in order |
| Materials.MaterialIdIsInsertionIndex | Materials.cpp:38-51 | from an empty table, material ID k is the k-th material added |
| Materials.Reload | Materials.cpp:54-63 | a handle is allocated only if there is none; the upload covers `sizeof(Material)` bytes per record |
| Materials.ReloadAllocatesOnce | Materials.cpp:55-56 | reloading again never allocates a second handle |

## Left out

- `SendToDevice`, the destructor and every OpenGL call are left out. The name
  `glGenBuffers` returns is a nonzero parameter.
- glm arithmetic is left out. This covers the view, projection, normal-matrix
  and light-transform computations, `ComputeTranslation` and the random
  colours. The scene's lights and matrices are parameters: a function from
  grid cell (i, j) to the record, with floats as opaque words.
- `UpdateCameraConfig`, which sets the eye, centre and up vectors for each
  configuration, is left out. `exit(0)` on Q becomes the state `Exited`.
- `Keyboard.HandleKey`: the camera configuration is a `nat`. The source's
  `int` starts at 0 and only this callback changes it, so it is never
  negative; the C `%` of a negative value is not modelled.
- `UniformBuffer.Clear`: its definition is not in the source. The model
  assumes it restores the constructor's CPU state and keeps the handle, as
  its declaration comment says.
- `UniformBuffer.Encode`: `int` is taken to be 32-bit two's complement,
  stored little-endian; `float` is 4 bytes; `true` is the byte 1. The source
  copies raw host memory, and nothing in it names the host.
- `UniformBuffer.Encode`: `Add(bool)` is not among the explicit
  instantiations in UniformBuffer.cpp. The model takes `sizeof(bool)` to be 1,
  which gives the light layout the code's authors intend.
- `UniformBuffer.Encode`: `Add(T*, n)` is modelled for `float` elements and
  n >= 0 only (a sequence of words). A negative n gives a negative size, which
  the model does not represent. It is also modelled only for 4n <= INT_MAX;
  above that, the `int` size parameter of `AddToBuffer` wraps.
- `padding_` is an `int` in the source and a `nat` here. It is only ever
  computed mod 16, so it stays in 0..15 and the width does not matter.
- `Materials.Reload` models only the handle and the size computation.
  Materials.h, which declares `Material`, is not part of this model, so
  `sizeof(Material)` is a parameter and the uploaded bytes are not modelled.
- The shader programs, `FrameBuffer` and `VertexArray` are outside the
  packing core.
- `Std140` covers only the member types the demo's blocks use: scalars,
  `vec3`, `vec4`, `mat4`, structures of these, and arrays of such structures.
